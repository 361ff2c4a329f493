# Verification of the SPHINCS-G wallet

This project models the logic of a native wallet and of the proof-aggregation code that ships beside it, and
proves properties of the model. Keccak is a parameter everywhere: no theorem depends on what it computes, only
on which bytes go in.

The pieces, from the bottom up:

- **Signature scheme.** `Bits`, `Bytes`, `Params`, `Hashing`, `Addresses`, `Merkle`, `Wots` and `Trees` hold the
  arithmetic, the hash addresses and the proof that they are all different, the Winternitz chains with their checksum,
  and the Merkle and FORS trees; `HashInputs` lays out what goes into each hash. `Signature` says what a signature
  consists of, node by node; `Signer` and `Verifier` fill and read the flat buffer in place. `Correctness` proves that
  every signature verifies, and `Soundness` the converse: what verifies is the owner's signature, or gives a collision,
  a second preimage or a chain run backwards away. Everything is generic in the tree heights, the layer count and the
  number of FORS trees, under `Params.Standard`; the shipped set is one instance. The structure is that of FIPS 205,
  sections 5 to 8.
- **Faster forms of the same computation.** `KeccakBatch` is the shared padded buffer (section 5.1 of FIPS 202)
  and `BatchedTwins` and `RSearch` are its users; `PoolProtocol`, `WorkerPool` and `ParallelSigner` are the worker
  pool and the signer spread over it. Each is proved equal to the plain form.
- **Sending.** `FramePayload` prices, builds, hashes and completes a frame transaction. `SendProtocol` is the
  state machine of any number of wallet contexts that share one lock and one journal entry per account, each of
  which may fail or die at any await. `PostedCalls` traces what is posted to what was asked for, `DeliveredSends` says
  which requests get through, `FinalReceipts` when a send counts as decided, and `LapsedLock` from which stages of a
  send losing the lock does harm. `LockProtocol` and `SigningLock` are the lock, `LockInterleaving` the awaits inside
  its operations, and `LeasedSend` the sends over that lock, with their renewals and the flag of a lost lease.
  `QueueProtocol` and `SendQueue` are the queue of confirmed sends, and `QueueOutcomes` tells its results by the
  events of a run.
- **Scheduling and ordering of proof batches.** `BatchSchedule` and `AdaptiveBatch` are the scheduler,
  `CandidateOrder` the order in which transactions are offered to it.
- **Smaller parts.** `Rlp` and `AggregateHeader` are the header splice under the aggregate block hash;
  `BlockScan`, `BlockScanner` and `IncomingPoller` the scanner of incoming blocks; `ActivityHistory` the history
  merge.

State that the source keeps in objects is a class here, whose methods are tied to the steps of a state machine on
values; the theorems about all runs are about that state machine. Timers, storage, the network and the node's
answers appear as arbitrary inputs of the steps.

Where code and comments disagree the code is followed: some comments speak of 43 chains and base-8 digits where the
constants are 35 chains and base 16, and one gives the batch buffer as 4 MiB where the binary's capacity is 4456448
bytes, which is 32768 blocks of 136; and the note in the backfill scan that a gap is never skipped is not what the
code does.

Several properties hold only under a condition. For each the condition is proved to be the exact one, and a concrete
input or run shows what happens without it:

- the 32-bit field read of the windowed search: `RSearch.WordReadIsExactWhen`;
- the signing lock when the session is locked or the service worker restarts: `LockProtocol.SessionLockIsSafeWhen` and
  `RestartIsSafeWhen`, and between the awaits of its operations `LockInterleaving.SessionLockedIsSafeWhen` and
  `TornDownIsSafeWhen`;
- the send journal when the lock is lost: `LapsedLock.LapseBreaksExactlyAt` and `LeasedSend.HarmlessExactlyWhenSpared`;
- the backfill walk when a fetch fails: `BlockScanner.BackfillLeavesNoHoleWhen` and `PassedOverStaysOut`;
- the pacing of recorded targets: `BatchSchedule.TargetsAdvanceWhen`;
- a confirmation in the history: `ActivityHistory.ConfirmedHashStaysWhen`.

## Model

| member | source | states |
|---|---|---|
| Correctness.EverySignatureVerifies | native-wallet-original/src/crypto/sphincs.js:723-786 | for every key, 32-byte message, hash function, tree heights, layer count and FORS tree count, the verifier accepts the signature bytes of the signer under the derived public key |
| Correctness.SignThenVerify | native-wallet-original/src/crypto/sphincs.js:1532-1549 | the two procedures run one after the other: a 32-byte message always ends in a signature that verifies, any other length in an error |
| Correctness.SignatureCarriesParts | native-wallet-original/src/crypto/sphincs.js:883-943 | every offset the verifier reads (per FORS tree, level, layer and chain) holds the node the signer put there |
| Correctness.CandidateNodesAreSignedNodes | native-wallet-original/src/crypto/sphincs.js:913-942 | by induction over the layers, the node the verifier computes below each layer is the node that layer signed |
| Correctness.ForsCandidateIsRoot | native-wallet-original/src/crypto/sphincs.js:890-910 | a revealed FORS secret climbed along its path reaches the root of its tree |
| Correctness.LayerCandidateIsRoot | native-wallet-original/src/crypto/sphincs.js:917-938 | completing the signed chains and climbing the path reaches the root of the subtree that signed |
| Correctness.GenuineIsAccepted | native-wallet-original/src/crypto/sphincs.js:883-946 | the same for the owner's signature under any 16-byte randomizer, not only the one the signer would derive |
| Soundness.AcceptedIsGenuine | native-wallet-original/src/crypto/sphincs.js:883-946 | a signature that verifies under a derived key is, byte for byte, the owner's for that message and randomizer; or it holds a second preimage of one of the owner's hash calls, at a named place and address; or it shows a chain at a position below the owner's, running forward to the end the owner published |
| Soundness.AcceptedExactlyWhenGenuine | native-wallet-original/src/crypto/sphincs.js:883-946 | so where it holds neither, the verdict is Ok exactly on the owner's signature |
| Soundness.AcceptedMeansRoot | native-wallet-original/src/crypto/sphincs.js:939-945 | the verdict is Ok exactly when the node computed above the top layer is the root that key generation published |
| Soundness.AcceptedForTwoMessages | native-wallet-original/src/crypto/sphincs.js:883-946 | a signature that verifies for two messages gives away two message inputs with one digest, two digests that differ only in bits the split leaves unused, two secrets with one value, or a forgery as above |
| Signer.SphincsSignStd | native-wallet-original/src/crypto/sphincs.js:723-786 | filling the buffer in place yields exactly the bytes of the specified node sequence, of length sigLen, and the internal root comparison never fails |
| Signer.TopNodeIsPublicRoot | native-wallet-original/src/crypto/sphincs.js:767-775 | the root reached after the top layer is the root key generation published, whichever leaf was used; so the mismatch error is unreachable |
| Signer.SphincsDerive | native-wallet-original/src/crypto/sphincs.js:979-1002 | the derived key, and the leaves of the top subtree that the signer reuses |
| Signer.WriteFors | native-wallet-original/src/crypto/sphincs.js:738-747 | the FORS part of the buffer is filled up to htOff with each secret and its path, and the FORS public key results |
| Signer.WriteHypertree | native-wallet-original/src/crypto/sphincs.js:749-771 | the hypertree part is filled to the last byte, each layer signing the root of the layer below |
| Signer.WriteWots | native-wallet-original/src/crypto/sphincs.js:754-759 | each chain of a layer is advanced by its digit of the node below and written at its own offset, leaving what was written before |
| Signature.PartsTileTheSignature | native-wallet-original/src/crypto/sphincs-params.js:10-17 | the parts laid side by side fill exactly sigLen bytes, FORS ending where the hypertree begins |
| Signature.TopLayerIsTreeZero | native-wallet-original/src/crypto/sphincs.js:749-771 | with h = d * h', the walk from any decoded tree index is in tree 0 at the top layer |
| Signature.TreeAtIsShift | native-wallet-original/src/crypto/sphincs.js:769-770 | the tree index at layer m is the decoded index shifted down by m subtree heights |
| Signature.KeyPairSignsOneNode | native-wallet-original/src/crypto/sphincs.js:749-771 | two walks under one key that come to the same tree and leaf at a layer sign the same node there, and their parts of that layer are equal |
| Signer.EveryKeyPairSignsOnce | native-wallet-original/src/crypto/sphincs.js:723-786 | so for any two messages under one key: no one-time key pair ever signs two different nodes, without any state being kept |
| Params.LedgerIsStandard | native-wallet-original/src/crypto/sphincs-params.js:9-17 | the literal sizes and offsets of the shipped set are the ones its geometry requires |
| Hashing.DecodedInRange | native-wallet-original/src/crypto/sphincs.js:659-669 | every digest decodes to a leaf, a tree and FORS fields inside their ranges |
| Hashing.TreeFieldAgrees | native-wallet-original/src/crypto/sphincs.js:116-140 | an index below 2^32 has the same address field as a number and as a big integer |
| HashInputs.MessageInputLayout | native-wallet-original/src/crypto/sphincs.js:150-165 | which bytes of the signed input are padding, randomizer, public seed, public root and message, in both layouts |
| HashInputs.MessageInputBinds | native-wallet-original/src/crypto/sphincs.js:150-165 | equal inputs come from the same layout, key, randomizer and message |
| HashInputs.HMsgHashesInput | native-wallet-original/src/crypto/sphincs.js:150-165 | the signed digest is keccak of that input |
| HashInputs.DecodedBitsAreDigest | native-wallet-original/src/crypto/sphincs.js:659-669 | the FORS fields, the leaf and the tree index side by side are the low bits of the digest, each bit once |
| HashInputs.DerivationsHashInputs | native-wallet-original/src/crypto/sphincs.js:181-208 | the seeds, secrets and randomizers are the hashes of tagged inputs that hold each of their arguments |
| HashInputs.DerivationsAreDistinct | native-wallet-original/src/crypto/sphincs.js:61-65 | no two of the scheme's derivations, under any keys, hash the same bytes, if the domain string is neither 20 nor 26 bytes long |
| HashInputs.LedgerSeparates | native-wallet-original/src/crypto/sphincs-params.js:9-17 | the domain string of the shipped set is not |
| HashInputs.CallLayout | native-wallet-original/src/crypto/sphincs.js:144-147 | which bytes of an addressed call's input are the public seed, zeros, the address and the nodes that are hashed |
| HashInputs.NodesAreWords | native-wallet-original/src/crypto/sphincs.js:246-265 | two nodes that are hashed follow in their order, each in the top half of a 32-byte word |
| HashInputs.CallHashesInput | native-wallet-original/src/crypto/sphincs.js:144-147 | every addressed call is keccak of such an input, cut to 16 bytes |
| HashInputs.TopIsHighHalf | native-wallet-original/src/crypto/sphincs.js:69-71 | what is kept of a digest is its high half as a number |
| Addresses.AddressesAreDistinct | native-wallet-original/src/crypto/sphincs.js:110-132 | domain separation: no two of the chain, public-key, subtree, FORS and FORS-root calls that the scheme makes share an address |
| Addresses.CallsUseTheirAddress | native-wallet-original/src/crypto/sphincs.js:215-320 | the hash functions of the scheme are calls under those addresses |
| Addresses.AdrsInjective | native-wallet-original/src/crypto/sphincs.js:116-140 | an address determines its layer, tree, type and three words |
| Addresses.AdrsFields | native-wallet-original/src/crypto/sphincs.js:116-140 | layer, tree, type and words lie at the byte positions of the 32-byte form, big-endian |
| Addresses.TypeIsStandard | native-wallet-original/src/crypto/sphincs.js:54-58 | each kind of call carries its type code of section 4.2 of FIPS 205 |
| Addresses.ForsWordInjective | native-wallet-original/src/crypto/sphincs.js:286-310 | while the forest fits 32 bits, different nodes of one level of it have different address words |
| Addresses.LedgerIsAddressable | native-wallet-original/src/crypto/sphincs-params.js:10-17 | the shipped set fits the address fields |
| Verifier.SphincsVerifyStd | native-wallet-original/src/crypto/sphincs.js:883-946 | the verifier's loops over FORS trees and layers compute the acceptance predicate |
| Verifier.SphincsVerify | native-wallet-original/src/crypto/sphincs.js:1532-1549 | the verdict for every input: wrong lengths, non-canonical key words, acceptance or root mismatch |
| Verifier.VerdictIsExact | native-wallet-original/src/crypto/sphincs.js:1532-1549 | a wrong length is reported exactly for wrong lengths, a bad key exactly when the length is right and a word is not a node in the top half of 32 bytes; Ok needs neither |
| Verifier.ClimbFromSignature | native-wallet-original/src/crypto/sphincs.js:898-908 | the bottom-up loop over a path read from the buffer is the climb function |
| Wots.ChainComposes | native-wallet-original/src/crypto/sphincs.js:215-221 | advancing a chain by m and then by n steps is advancing it by m + n steps |
| Wots.WotsChain | native-wallet-original/src/crypto/sphincs.js:215-221 | the loop advances a chain from one position to another |
| Wots.WotsDigitsStd | native-wallet-original/src/crypto/sphincs.js:675-690 | the shifts and masks extract 32 message digits and the checksum in three base-16 digits |
| Wots.DigitsSpellNode | native-wallet-original/src/crypto/sphincs.js:675-682 | the message digits, most significant first, spell the node in base 16 |
| Wots.ChainIsSteps | native-wallet-original/src/crypto/sphincs.js:215-221 | each step of a chain is one hash, under the position it starts from |
| Wots.NoDigitVectorDominates | native-wallet-original/src/crypto/sphincs.js:675-690 | of two different nodes neither digit vector dominates the other: each has a strictly smaller digit somewhere |
| Wots.ChecksumDigitsCarryAll | native-wallet-original/src/crypto/sphincs.js:683-688 | the three checksum digits lose nothing of the checksum |
| Wots.WotsPk | native-wallet-original/src/crypto/sphincs.js:693-700 | a key pair's public key is the compression of all its chain ends |
| Wots.WotsPkRange | native-wallet-original/src/crypto/sphincs.js:712-720 | the packed leaves of a key range, in order |
| Wots.PublicKeysAt | native-wallet-original/src/crypto/sphincs.js:393-401 | leaf j of a range is the public key of key pair j, wherever the range starts |
| Merkle.ReduceLevels | native-wallet-original/src/crypto/sphincs.js:246-265 | the in-place level reduction yields the root and the authentication path of a leaf |
| Merkle.ClimbReachesRoot | native-wallet-original/src/crypto/sphincs.js:246-265 | climbing a leaf along its authentication path reaches the root, for any tree height and hash |
| Merkle.ClimbCameFromLeaf | native-wallet-original/src/crypto/sphincs.js:898-908 | the converse: a climb that arrives at a node of the tree came from the tree's own leaf along its own path, if no join on the way has two preimages |
| Merkle.LevelsCompose | native-wallet-original/src/crypto/sphincs.js:272-301 | reducing by m and then by n levels is reducing by m + n levels |
| Merkle.BlockRootAt | native-wallet-original/src/crypto/sphincs.js:332-360 | a block of leaves reduced alone, under global node addresses, gives the matching node of the whole tree |
| Merkle.SplitAuthPath | native-wallet-original/src/crypto/sphincs.js:370-389 | the path inside a block followed by the path above the blocks is the path in the whole tree |
| Trees.SubtreeRootAuth | native-wallet-original/src/crypto/sphincs.js:246-265 | the root and path of a hypertree subtree over given leaves |
| Trees.ForsTreeRootAuth | native-wallet-original/src/crypto/sphincs.js:272-301 | the root and path of a FORS tree built in one go |
| Trees.ForsSubtree | native-wallet-original/src/crypto/sphincs.js:332-360 | the root and path of one block of a FORS tree |
| Trees.ForsCombineTop | native-wallet-original/src/crypto/sphincs.js:370-389 | the root and top path over the block roots |
| Trees.ForsSplitMatchesMonolithic | native-wallet-original/src/crypto/sphincs.js:332-389 | for every height, cut and reveal index, the split build has the root and the authentication path of the monolithic one |
| Bits.OrShl | native-wallet-original/src/crypto/sphincs.js:286-298 | shift and OR of a small index is multiplication and addition |
| Bits.XorOne | native-wallet-original/src/crypto/sphincs.js:253-259 | index XOR 1 is the sibling |
| KeccakBatch.Kernel.Begin | native-wallet-original/src/crypto/keccak-batch.js:108-121 | an empty batch: zeroed slots with their padding stamped, the one-byte 0x81 case included; refused when the batch does not fit |
| KeccakBatch.Kernel.StampPadding | native-wallet-original/src/crypto/keccak-batch.js:114-118 | the stamping loop leaves each slot holding nothing but its padding |
| KeccakBatch.Kernel.Put | native-wallet-original/src/crypto/keccak-batch.js:101-107 | raw bytes written at a slot's write position extend that slot's message and touch no other slot |
| KeccakBatch.PartialComplete | native-wallet-original/src/crypto/keccak-batch.js:108-121 | a slot whose message is complete is the message with pad10*1 to whole blocks of 136 bytes |
| KeccakBatch.PaddedBytes | native-wallet-original/src/crypto/keccak-batch.js:108-121 | the padded message byte by byte: 0x01, zeros and 0x80, or 0x81 when one byte is left, up to the next multiple of 136 |
| KeccakBatch.PadInjective | native-wallet-original/src/crypto/keccak-batch.js:108-121 | no two messages are padded to the same blocks |
| KeccakBatch.Kernel.Run | native-wallet-original/src/crypto/keccak-batch.js:128-132 | every slot is hashed to its own digest |
| KeccakBatch.Kernel.HashAll | native-wallet-original/src/crypto/keccak-batch.js:139-145 | the one-shot form hashes each message as it would be hashed alone, and fails exactly when the batch does not fit |
| BatchedTwins.ForsSubtreeBatched | native-wallet-original/src/crypto/sphincs.js:431-503 | the batched FORS block returns the root and path of the per-hash one for all heights, reveal indices and chunk boundaries; no batch exceeds capacity |
| BatchedTwins.WotsPkRangeBatched | native-wallet-original/src/crypto/sphincs.js:509-570 | the batched key range returns the leaves of the per-hash one for all ranges and chunk boundaries |
| BatchedTwins.PutSk | native-wallet-original/src/crypto/sphincs.js:440-449 | the slot written for a secret is the scalar secret's hash input |
| BatchedTwins.PutForsParent | native-wallet-original/src/crypto/sphincs.js:478-494 | the slot written for a FORS parent is the scalar hash input |
| BatchedTwins.PutWotsHash | native-wallet-original/src/crypto/sphincs.js:533-548 | the slot written for a chain step is the scalar hash input |
| BatchedTwins.PutWotsPk | native-wallet-original/src/crypto/sphincs.js:551-563 | the slot written for a public key is the scalar hash input over all chain ends |
| BatchedTwins.ChunkFits | native-wallet-original/src/crypto/sphincs.js:425-430 | a chunk of 512 key pairs fits both the one-block and the compression batch |
| RSearch.RgrindChunk | native-wallet-original/src/crypto/sphincs.js:406-414 | the one-by-one search returns the smallest counter that hits, if any |
| RSearch.RgrindChunkBatched | native-wallet-original/src/crypto/sphincs.js:575-607 | the windowed search returns that same counter, when the field is readable and H_msg is not compacted |
| RSearch.WindowHoldsField | native-wallet-original/src/crypto/sphincs.js:581-600 | the bytes covering a field, shifted and masked, give the field of the whole digest at any bit offset |
| RSearch.WordReadIsExactWhen | native-wallet-original/src/crypto/sphincs.js:578-600 | reading those bytes through a 32-bit word and a 32-bit mask is right on every digest exactly when the field has at most 31 bits and, with its offset in the first byte, at most 32 |
| RSearch.TopBitIsLost | native-wallet-original/src/crypto/sphincs.js:586-600 | in every other case the digest with only the field's top bit set is read as zero |
| RSearch.ReadField | native-wallet-original/src/crypto/sphincs.js:598-600 | the byte loop with its wrap-around and its mask computes that read |
| PoolProtocol.EveryRunKeepsInvariant | native-wallet-original/src/crypto/sphincs-pool.js:40-102 | in every run each worker is idle or holds one job, every job is queued, running or settled, jobs go out in submission order, and no idle worker coexists with a queued job |
| PoolProtocol.EveryRunIsFaithful | native-wallet-original/src/crypto/sphincs-pool.js:57-90 | in every run a resolved promise holds the result of the task it was submitted with |
| PoolProtocol.QuietPoolHasSettledAll | native-wallet-original/src/crypto/sphincs-pool.js:71-102 | when no worker is busy, nothing is queued and every job has settled |
| PoolProtocol.SomeoneIsBusy | native-wallet-original/src/crypto/sphincs-pool.js:71-102 | while a job has not settled some worker is running: the pool cannot stall |
| PoolProtocol.AnswerSettlesOnce | native-wallet-original/src/crypto/sphincs-pool.js:81-90 | a reply settles exactly the job its worker held, once |
| PoolProtocol.CrashSettlesOnce | native-wallet-original/src/crypto/sphincs-pool.js:92-102 | a worker error settles exactly the job that worker held |
| PoolProtocol.RejectedExactlyWhenFailed | native-wallet-original/src/crypto/sphincs-pool.js:81-102 | in every run a promise is rejected exactly when the worker that held its job failed or crashed over it |
| WorkerPool.SphincsPool.constructor | native-wallet-original/src/crypto/sphincs-pool.js:29-39 | the pool size is clamped to one to eight workers, all idle |
| WorkerPool.SphincsPool.Drain | native-wallet-original/src/crypto/sphincs-pool.js:71-79 | the draining loop is the drain step of the protocol |
| WorkerPool.SphincsPool.Submit | native-wallet-original/src/crypto/sphincs-pool.js:62-69 | submission is the submit step and keeps the invariant |
| WorkerPool.SphincsPool.OnMessage | native-wallet-original/src/crypto/sphincs-pool.js:81-90 | a reply is the reply step |
| WorkerPool.SphincsPool.OnError | native-wallet-original/src/crypto/sphincs-pool.js:92-102 | a worker error is the error step |
| WorkerPool.SphincsPool.RunAll | native-wallet-original/src/crypto/sphincs-pool.js:57-60 | whatever order workers finish in and whatever other callers submit meanwhile, the results come back in task order; the only other outcome is a rejection, exactly when one of its own promises was rejected |
| ParallelSigner.SphincsSignAsyncStd | native-wallet-original/src/crypto/sphincs.js:791-879 | for every pool size and finishing order the parallel signer returns the bytes of the sequential one, or a rejection when a promise of one of its own batches was rejected |
| ParallelSigner.KeygenTopAsync | native-wallet-original/src/crypto/sphincs.js:1264-1284 | key generation on the pool yields the derived key and the leaves of the top subtree, or fails exactly when a promise of its own batch was rejected |
| ParallelSigner.RangeChunks | native-wallet-original/src/crypto/sphincs.js:1183-1188 | the ranges are consecutive, non-empty and cover every leaf exactly once |
| ParallelSigner.AssembleLeaves | native-wallet-original/src/crypto/sphincs.js:1190-1200 | reassembling the results of a partition restores every leaf in its place |
| ParallelSigner.SubtreeTasks | native-wallet-original/src/crypto/sphincs.js:808-819 | each lower-layer task carries the tree index the walk has at its layer |
| ParallelSigner.RunSphincsTask | native-wallet-original/src/crypto/sphincs.js:1215-1258 | what a worker computes for the two standard task kinds |
| ParallelSigner.DecimalRoundTrip | native-wallet-original/src/crypto/sphincs.js:802-818 | a tree index survives its trip as a decimal string |
| ParallelSigner.BatchSplits | native-wallet-original/src/crypto/sphincs.js:820-822 | slicing the batch at the number of FORS tasks gives each kind of task its own results |
| ParallelSigner.WriteForsResults | native-wallet-original/src/crypto/sphincs.js:827-834 | the buffer is filled from the FORS results as the sequential signer fills it |
| ParallelSigner.WriteHypertreeResults | native-wallet-original/src/crypto/sphincs.js:836-862 | the buffer is filled from the subtree results as the sequential signer fills it |
| FramePayload.SignatureIsNotSigned | native-wallet-original/src/native-frame/protocol.js:14-18 | adding the signature leaves the signed form unchanged exactly when the first witness signs the transaction itself or already held that signature |
| FramePayload.SignedFormCoversAllBut | native-wallet-original/src/native-frame/protocol.js:14-18 | two payloads have one signed form exactly when they differ in nothing but signatures of witnesses that sign the transaction itself |
| FramePayload.OutcomeIsExact | native-wallet-original/src/native-frame/protocol.js:59-70 | confirmed exactly when the transaction's own receipt says that it and each of its frames succeeded, failed exactly when that says it or a frame failed, pending exactly without a receipt |
| FramePayload.CheckedTxIsOk | native-wallet-original/src/native-frame/client.js:63-86 | a transaction that passes the checks carries the signature of its own digest, sender, nonce, frame count and hash |
| FramePayload.PostedTxIsFunded | native-wallet-original/src/native-frame/client.js:36-70 | the balance read just before posting covers the value and the gas limits of every frame at the highest offered price |
| PostedCalls.CheckedIsRequested | native-wallet-original/src/native-frame/client.js:52-70 | a checked transaction, read back, is the request: chain id, nonce, account, fees and signature; the call with its target, value, data and padded gas last, the account's validation before it, and the factory call first exactly when the account is not deployed; and the checks held when it was priced and when it was checked |
| PostedCalls.PostedIsRequested | native-wallet-original/src/native-frame/send.js:29-61 | in every run, the lock kept or lost, every posted transaction goes back to one request that one context priced, signed and checked in this order, and is that request in this sense |
| DeliveredSends.CheckedExactlyWhen | native-wallet-original/src/native-frame/client.js:37-70 | a request comes as far as the journal exactly when account, key, sizes, fees, gas, balances, nonces, review and ages are acceptable, each spelled out |
| DeliveredSends.AcceptableIsPosted | native-wallet-original/src/native-frame/send.js:29-61 | from every state with the lock free and the account's journal empty, the awaits of an acceptable request end with it posted and recorded, and nothing else changed |
| DeliveredSends.DecidedIsFinished | native-wallet-original/src/native-frame/send.js:62-80 | a receipt that decides a posted transaction takes its entry out of the journal and frees the lock |
| DeliveredSends.DecidedMakesRoom | native-wallet-original/src/native-frame/send.js:33-38 | an earlier entry goes when its receipt is final, and the next send has the account to itself |
| DeliveredSends.OpenBlocks | native-wallet-original/src/native-frame/send.js:33-38 | while it is not final, the next send gives up with everything as it was |
| SendProtocol.UnresolvedIsJournalled | native-wallet-original/src/native-frame/send.js:29-80 | in every interleaving with crashes and failures at any await, in which the lock is freed only while its holder has nothing left to do, a posted hash without a final receipt is the one in its account's journal; an account has at most one |
| SendProtocol.PostedIsWhatWasSigned | native-wallet-original/src/native-frame/send.js:48-61 | in every run, the lock kept or lost, the signature inside a posted payload was made for that payload's digest |
| SendProtocol.OneContextInside | native-wallet-original/src/native-frame/send.js:29-31 | in those runs at most one context works inside the lock |
| SendProtocol.EntriesOutliveCrashes | native-wallet-original/src/native-frame/send.js:33-38 | in those runs no step, crash included, drops or replaces a journal entry whose receipt was not seen final |
| FinalReceipts.FinalHasReceipt | native-wallet-original/src/native-frame/send.js:33-80 | in every run, the lock kept or lost, what counts as final was seen so in a receipt of its own, included in a block, with a status |
| FinalReceipts.WatchesNinetyTimes | native-wallet-original/src/native-frame/send.js:62-80 | a transaction without a receipt is looked for ninety times, and then the send leaves with the journal as it was |
| FinalReceipts.ErrorIsRecorded | native-wallet-original/src/native-frame/client.js:76-84 | an error in answer to a posted transaction leads to a journal entry marked uncertain |
| FinalReceipts.OpenStaysOnRecord | native-wallet-original/src/native-frame/send.js:33-38 | in every run in which the lock is kept that mark stays until the receipt is final |
| SendProtocol.MayFailAnywhere | native-wallet-original/src/native-frame/send.js:29-80 | the runs these speak of leave nothing out: any context may die in any state, one inside the lock may fail there, a lock that is held may be lost |
| SendProtocol.StepKeepsInvariant | native-wallet-original/src/native-frame/send.js:29-80 | every step of every context keeps what the journal and the lock promise |
| LapsedLock.LapseBreaksExactlyAt | native-wallet-original/src/native-frame/send.js:29-80 | for any codec, account and two sends that pass their checks with different hashes: losing the lock can end with a posted transaction missing from the journal from every stage of a send but the last, and from that one never |
| LapsedLock.EveryKeyHasAPair | native-wallet-original/src/native-frame/client.js:52-86 | the account of every key has two such sends, as long as hashing tells their nonces apart |
| LapsedLock.Overtake | native-wallet-original/src/native-frame/send.js:33-38 | the run that shows it: a second context resolves the entry the first is about to clear, posts its own transaction, and has its entry cleared |
| LeasedSend.RunRefines | native-wallet-original/src/transactions/signing-lock.js:25-69 | every run of contexts that acquire, renew, lose and release leases, with any other users of the lock, is event by event a run of the send protocol |
| LeasedSend.HarmlessExactlyWhenSpared | native-wallet-original/src/background/index.js:865-1061 | what the clock, a locked session or a restart does to the lease is harmless exactly when no working context's lease runs out or is wiped |
| LeasedSend.LeasedSendsAreJournalled | native-wallet-original/src/native-frame/send.js:29-80 | so in every run whose events spare whoever works, a posted hash without a final receipt is the one in its account's journal |
| LeasedSend.PromptSendsAreSafe | native-wallet-original/src/transactions/signing-lock.js:49-58 | with session storage, timers that miss at most one renewal and no session locked under a working context, that holds and one context works at a time |
| LeasedSend.RefusedExactlyWhenLost | native-wallet-original/src/transactions/signing-lock.js:49-58 | a context's renewal is refused, and its flag set, exactly when the lease is no longer its own |
| LeasedSend.RefusedNeverPosts | native-wallet-original/src/native-frame/client.js:63-86 | a context whose renewal was refused or unanswered before its last look at the flag never posts what it has in hand, whatever else happens |
| LockProtocol.LeasesNeverOverlap | native-wallet-original/src/background/index.js:981-1061 | in every run in which no lease is wiped from under its holder, two owners never rely on the lock at the same time |
| LockProtocol.HolderIsServed | native-wallet-original/src/background/index.js:999-1061 | in those runs a holder's renewal is never refused; nobody else acquires or releases its lease |
| LockProtocol.GrantedExactlyWhen | native-wallet-original/src/background/index.js:981-1028 | in those runs the lock is granted exactly when nobody relies on it; in any run whoever asks while nobody relies on it gets it |
| LockProtocol.ReleasedIsGranted | native-wallet-original/src/background/index.js:1051-1061 | a lock that its holder gave back is granted to whoever asks next |
| LockProtocol.SilenceFreesTheLock | native-wallet-original/src/background/index.js:968-980 | five minutes without a renewal free the lock, whatever happened before |
| LockProtocol.RenewalsComeInTime | native-wallet-original/src/transactions/signing-lock.js:49-58 | for every requested lifetime, three renewal intervals fit the granted lease; and no more than that needs: ten seconds at least, a minute at most, a third of the lifetime between |
| LockProtocol.SessionLockIsSafeWhen | native-wallet-original/src/background/index.js:894-917 | locking the session keeps what the lock promises exactly when nobody holds it: it wipes the lease and tells no holder |
| LockProtocol.SessionLockBreaksIt | native-wallet-original/src/background/index.js:865-917 | a concrete run: the session is locked under a holder, and a second owner is let in beside it |
| LockProtocol.RestartIsSafeWhen | native-wallet-original/src/background/index.js:981-997 | a restarted service worker keeps it exactly when there is session storage or nobody holds the lock |
| LockProtocol.RestartWithoutStorageBreaksIt | native-wallet-original/src/background/index.js:981-997 | a concrete run: without session storage a restart lets a second owner in |
| LockProtocol.WipedLeaseIsGrantedAgain | native-wallet-original/src/background/index.js:894-917 | from any state, a lease wiped from under its holder is granted to the next owner at once |
| LockInterleaving.QueueKeepsLeasesApart | native-wallet-original/src/background/index.js:981-1061 | with acquisitions queued, no interleaving of the awaits inside any operations lets two owners rely on the lock, as long as no lease is wiped and no restart meets one missing from storage |
| LockInterleaving.TornDownIsSafeWhen | native-wallet-original/src/background/index.js:981-997 | between those awaits, a restart keeps every lease exactly when each one relied on is still in storage |
| LockInterleaving.SessionLockedIsSafeWhen | native-wallet-original/src/background/index.js:894-917 | and locking the session exactly when nobody relies on one |
| LockInterleaving.UnqueuedAcquiresOverlap | native-wallet-original/src/background/index.js:1021-1028 | what the queue is for: without it two acquisitions that ask storage together are both granted |
| LockInterleaving.LateRemovalLosesALease | native-wallet-original/src/background/index.js:981-997 | a concrete run: an expired holder's renewal removes a newer owner's stored lease, and after a restart a third owner is let in |
| LockInterleaving.AloneIsAtomic | native-wallet-original/src/background/index.js:981-1061 | an operation that nothing comes between is the atomic operation of LockProtocol |
| SigningLock.SigningLock.Get | native-wallet-original/src/background/index.js:981-997 | the lookup is the lookup of the protocol |
| SigningLock.SigningLock.Acquire | native-wallet-original/src/background/index.js:999-1019 | the acquire step; a grant means nobody else holds the lock, and while somebody does nobody is granted it |
| SigningLock.SigningLock.Renew | native-wallet-original/src/background/index.js:1030-1049 | the renew step; a holder is never refused |
| SigningLock.SigningLock.Release | native-wallet-original/src/background/index.js:1051-1061 | the release step; whoever else held the lock still does |
| SigningLock.SigningLock.LockSession | native-wallet-original/src/background/index.js:894-917 | locking the session wipes the lease in memory and in storage, and keeps the lock's promise exactly when nobody held it |
| QueueProtocol.OneAtATimeInOrder | native-wallet-original/src/transactions/manual-send-queue.js:28-75 | in every run at most one send executes, sends start in confirmation order, and a job cancelled before its start never executes |
| QueueProtocol.NothingStartsBehindAFailure | native-wallet-original/src/transactions/manual-send-queue.js:46-72 | once a job has failed no job queued behind it in the same busy period starts |
| QueueOutcomes.OutcomeIsWhatHappened | native-wallet-original/src/transactions/manual-send-queue.js:46-62 | told by the events of the run: a job counts as sent exactly when its send ended with a hash, as failed after its start exactly when it ended without, and started only when it was let through |
| QueueOutcomes.NothingStartsBehindAHashlessEnd | native-wallet-original/src/transactions/manual-send-queue.js:46-62 | a send that ended without a hash is the last of its busy period |
| QueueOutcomes.NextStartsBehindAHash | native-wallet-original/src/transactions/manual-send-queue.js:46-62 | behind a send that ended with one, the next job of the period can start, and does when it is let go on uncancelled |
| QueueOutcomes.StartsExactlyWhen | native-wallet-original/src/transactions/manual-send-queue.js:46-54 | a job whose turn has come starts exactly when the context holds, it was not cancelled, and its predecessor ended with a hash or was skipped; it is skipped exactly when it was cancelled and that is so |
| QueueOutcomes.CancelledExactlyWhen | native-wallet-original/src/transactions/manual-send-queue.js:21-26 | a job counts as cancelled exactly when the user cancelled it while it stood in the queue and waited |
| QueueOutcomes.ConfirmedExactlyWhen | native-wallet-original/src/transactions/manual-send-queue.js:28-45 | a confirmation is refused exactly when the context is wrong, or nothing is unsettled and another send is unresolved; otherwise one waiting job is added, behind the last exactly when some job is unsettled |
| QueueProtocol.CounterIsExact | native-wallet-original/src/transactions/manual-send-queue.js:41-66 | the counter is zero exactly when every job has settled, and exactly then the chain is forgotten |
| QueueProtocol.StepKeepsInvariant | native-wallet-original/src/transactions/manual-send-queue.js:21-75 | every event keeps the chain, the counter and the order of starts |
| SendQueue.ManualSendQueue.Confirm | native-wallet-original/src/transactions/manual-send-queue.js:28-45 | who is refused, who runs at once and who is queued behind the tail; a send that runs at once finds every earlier job settled |
| SendQueue.ManualSendQueue.Cancel | native-wallet-original/src/transactions/manual-send-queue.js:21-26 | only a queued job that is still waiting, and not yet cancelled, is cancelled; it has not started |
| SendQueue.ManualSendQueue.Proceed | native-wallet-original/src/transactions/manual-send-queue.js:46-54 | a job moves on as its predecessor, its cancellation and the context decide; one that starts was not cancelled and runs alone |
| SendQueue.ManualSendQueue.Finish | native-wallet-original/src/transactions/manual-send-queue.js:54-62 | a send that ends is sent exactly when it has a hash, and failed exactly when not |
| SendQueue.ManualSendQueue.Settle | native-wallet-original/src/transactions/manual-send-queue.js:63-67 | a settling job is counted off and an idle queue forgets its chain |
| BatchSchedule.EveryRunIsPaced | aggregation/frames/adaptive/AdaptiveBatchPolicy.cs:22-47 | in every run the estimate stays in [0.005, 0.20]; when each completion follows an observation of its batch, recorded targets are at least one slot apart |
| BatchSchedule.FirstSeenDecides | aggregation/frames/adaptive/AdaptiveBatchPolicy.cs:22-49 | in every run the policy is the one left by the first observation since the batch was last empty, completed or dropped, whatever was observed since; without one it has no target |
| BatchSchedule.TargetsAdvanceWhen | aggregation/frames/adaptive/AdaptiveBatchPolicy.cs:39-47 | a completion moves the recorded target on by a slot exactly when there was a target or a slot has passed by the clock |
| BatchSchedule.UnobservedCompletionFallsBack | aggregation/frames/adaptive/AdaptiveBatchPolicy.cs:44-46 | a concrete completion without an observed batch, which moves the recorded target back |
| BatchSchedule.TargetLeavesRoom | aggregation/frames/adaptive/AdaptiveBatchPolicy.cs:19-35 | the chosen target lies after now plus 0.10 s, the estimate for each claim and 0.15 s; it is the first slot of the phase shown that does, unless the last target plus a slot forces a later time |
| BatchSchedule.ProofFitsBeforeTarget | aggregation/frames/adaptive/AdaptiveBatchPolicy.cs:19-35 | in every run a proof that was started when its batch was first seen, and took no longer than overhead and estimate, would end before the target with the margin to spare |
| BatchSchedule.EstimateIsWhatIsLearnt | aggregation/frames/adaptive/AdaptiveBatchPolicy.cs:19-47 | estimating and learning are inverse: a job that takes exactly the estimated time leaves the estimate as it is |
| BatchSchedule.RecordedTarget | aggregation/frames/adaptive/AdaptiveBatchPolicy.cs:44-46 | the target recorded for a batch is the later of its own and the time of its completion |
| BatchSchedule.NextFreeSlotIsFirst | aggregation/frames/adaptive/AdaptiveBatchPolicy.cs:31-33 | the floor arithmetic finds the first slot of the phase strictly after the earliest time |
| BatchSchedule.ReadyExactlyWhen | aggregation/frames/adaptive/AdaptiveBatchPolicy.cs:22-37 | in every run a batch is ready exactly when it holds 40 claims, or half a second has passed since its first observation and a proof started now, at 0.10 s and the estimate for each claim, would end less than 0.15 s before the target chosen then |
| BatchSchedule.ReadinessPersists | aggregation/frames/adaptive/AdaptiveBatchPolicy.cs:22-37 | in every run a batch once ready is ready at every later time and count not below, whatever was observed of it in between |
| BatchSchedule.ReleasedInTime | aggregation/frames/adaptive/AdaptiveBatchPolicy.cs:22-37 | in every run a batch is ready two seconds after its first observation, unless the slot shown then or the last target, less the time its proof and the margin take, keep it longer, and then no longer than they do, whatever was observed in between |
| BatchSchedule.EstimateContracts | aggregation/frames/adaptive/AdaptiveBatchPolicy.cs:43 | each completion brings the estimate closer to the time the job showed by a factor of at least 0.8, and by exactly that unless the job was slower than the policy can follow |
| BatchSchedule.EstimateConverges | aggregation/frames/adaptive/AdaptiveBatchPolicy.cs:43 | under a constant service time the estimate converges geometrically |
| AdaptiveBatch.AdaptiveBatchPolicy.Ready | aggregation/frames/adaptive/AdaptiveBatchPolicy.cs:22-37 | the observation step, its argument error included; a partial batch is ready only half a second after it was first seen and when 0.10 s, the estimate for each claim and 0.15 s reach the target |
| AdaptiveBatch.AdaptiveBatchPolicy.Completed | aggregation/frames/adaptive/AdaptiveBatchPolicy.cs:39-47 | the completion step, its argument error included; after an observed batch the recorded target has moved on by a slot |
| AdaptiveBatch.AdaptiveBatchPolicy.Reset | aggregation/frames/adaptive/AdaptiveBatchPolicy.cs:49 | the method is the reset step |
| CandidateOrder.ArrivalTracker.Observe | aggregation/frames/adaptive/prepare.py:161-166 | first-seen times are kept for exactly the pending transactions, the old time where there was one |
| CandidateOrder.ArrivalTracker.SenderArrivals | aggregation/frames/adaptive/prepare.py:176-179 | the loop finds each sender's earliest first-seen time |
| CandidateOrder.OrderIsTotal | aggregation/frames/adaptive/prepare.py:180-185 | the comparator is antisymmetric and total, and ties only equal nonces of one sender |
| CandidateOrder.OrderIsTransitive | aggregation/frames/adaptive/prepare.py:180-185 | the comparator is transitive |
| CandidateOrder.CompareIsLexicographic | aggregation/frames/adaptive/prepare.py:180-185 | addresses compare by the first byte in which they differ, then by length |
| CandidateOrder.SendersStayTogether | aggregation/frames/adaptive/prepare.py:176-185 | any correct sort keeps each sender contiguous in nonce order, senders by earliest arrival, and by address where that is the same |
| CandidateOrder.MixedOrderHasCycle | aggregation/frames/adaptive/prepare.py:167-171 | the comparator it replaced goes round in a circle exactly on this pattern of arrivals |
| CandidateOrder.MixedOrderExample | aggregation/frames/adaptive/prepare.py:173-176 | a concrete cycle of three transactions |
| Rlp.DecodeUndoesEncode | aggregation/frames/consensus/aggregate_block_hash.rs:24-39 | decoding undoes encoding whatever follows: no encoding is a prefix of another |
| Rlp.EncodeUndoesDecode | aggregation/frames/consensus/aggregate_block_hash.rs:24-27 | only canonical byte strings are accepted |
| Rlp.HeaderRoundTrip | aggregation/frames/consensus/aggregate_block_hash.rs:26-37 | headers of the short and the long form decode to what was encoded |
| Rlp.KnownHeaders | aggregation/frames/consensus/aggregate_block_hash.rs:26-37 | the headers on both sides of the 55-byte limit |
| Rlp.KnownEncodings | aggregation/frames/consensus/aggregate_block_hash.rs:24-39 | the empty string and list, a bare byte, and the examples of Appendix B |
| AggregateHeader.AggregatePreimage | aggregation/frames/consensus/aggregate_block_hash.rs:24-39 | the appends succeed exactly on a list header with exact payload length and produce the header of fields plus suffix |
| AggregateHeader.PreimageIsExtendedHeader | aggregation/frames/consensus/aggregate_block_hash.rs:24-39 | the spliced bytes are the encoding of, and decode to, the base items, two empty strings and the pair of proof and commitment |
| AggregateHeader.SplicedItems | aggregation/frames/consensus/aggregate_block_hash.rs:24-39 | item by item: the base fields first, two empty strings after them, and last the proof and then the commitment |
| AggregateHeader.PreimagesAreDistinct | aggregation/frames/consensus/aggregate_block_hash.rs:24-39 | distinct triples of items, proof and commitment have distinct preimages |
| AggregateHeader.PreimageDecodesExactlyWhen | aggregation/frames/consensus/aggregate_block_hash.rs:24-39 | of the base headers that pass the header check, exactly those whose payload is a row of items give a preimage that decodes to some items, two empty strings and this pair |
| AggregateHeader.PreimageDeterminesInputs | aggregation/frames/consensus/aggregate_block_hash.rs:24-39 | among those the preimage determines the base header, the proof and the commitment |
| AggregateHeader.CutOffPayloadIsAmbiguous | aggregation/frames/consensus/aggregate_block_hash.rs:24-39 | why a row of items: two concrete headers that pass the check, one with a payload cut off inside a list, share a preimage |
| BlockScan.ScanIncoming | native-wallet-original/src/background/index.js:127-222 | every block up to the reported height was handed over; with no failure that is the whole range; with an honest node the next block was not; nothing counts that was not handed over; and the scan reports a limit exactly when a chunk met one |
| BlockScan.ContiguousHigh | native-wallet-original/src/background/index.js:214-222 | the loop finds the last block before the first missing or failed one |
| BlockScanner.WindowKeepsUp | native-wallet-original/src/blockchain/scan-window.js:62-81 | keepsUp holds exactly up to 1000 blocks an interval; the window then covers an interval and an on-time tick is never stale |
| BlockScanner.WindowIsTimely | native-wallet-original/src/blockchain/scan-window.js:62-81 | unless they are capped, the window holds twice the blocks of an interval, and the lookback an hour of them and no block more |
| BlockScanner.CheckpointNeverPassesGap | native-wallet-original/src/background/index.js:267-375 | in every run under any failures, every block between the last anchor and the checkpoint was handed over |
| BlockScanner.OnTimeTick | native-wallet-original/src/background/index.js:298-375 | a flawless tick on time brings the checkpoint to the head without re-anchoring and moves the backfill cursor down by a window |
| BlockScanner.OnTimeRun | native-wallet-original/src/background/index.js:298-375 | so it is over every failure-free run on time |
| BlockScanner.BackfillCompletes | native-wallet-original/src/background/index.js:348-375 | after enough such ticks every block above the backfill target was handed over |
| BlockScanner.FirstTick | native-wallet-original/src/background/index.js:312-325 | the first tick of a new wallet starts such a run |
| BlockScanner.StartsOverExactlyWhen | native-wallet-original/src/background/index.js:298-325 | a tick starts over near the head, as a new wallet does, exactly when the checkpoint is more than two lookbacks behind; else it keeps its cursors |
| BlockScanner.HoleIsPassedOver | native-wallet-original/src/background/index.js:367-375 | a concrete slice with one missing block, below which the cursor then goes |
| BlockScanner.PassedOverStaysOut | native-wallet-original/src/background/index.js:327-375 | a block passed over is asked for by no later tick, forward or backward, until a re-anchor |
| BlockScanner.BackfillLeavesNoHoleWhen | native-wallet-original/src/background/index.js:367-375 | a backfill tick leaves no hole above its cursor exactly when it was throttled or the whole slice was handed over |
| IncomingPoller.Poller.Poll | native-wallet-original/src/background/index.js:267-375 | the method is the tick, with scans that went as scans go |
| IncomingPoller.Poller.Anchor | native-wallet-original/src/background/index.js:298-325 | stale or missing cursors are re-anchored at the head |
| IncomingPoller.Poller.FillBack | native-wallet-original/src/background/index.js:348-375 | the backward slice is scanned and the cursor moved down |
| ActivityHistory.OneRowInPlace | native-wallet-original/src/ui/utils/transaction-activity.js:10-25 | an update that names a transaction leaves exactly one row for it, in the place of the first, and every other row in its order |
| ActivityHistory.BelongsExactlyWhen | native-wallet-original/src/ui/utils/transaction-activity.js:10-13 | a row belongs to an update exactly when they share an activity id, or a transaction or operation hash whatever the case of its letters |
| ActivityHistory.FirstsAreFirst | native-wallet-original/src/ui/utils/transaction-activity.js:14-18 | the update is laid over the first match that names an activity, else over the first; the confirmation kept is the first confirmed match |
| ActivityHistory.MergedFieldByField | native-wallet-original/src/ui/utils/transaction-activity.js:14-20 | what each field of the merged row holds, and where it came from |
| ActivityHistory.ConfirmationIsKept | native-wallet-original/src/ui/utils/transaction-activity.js:14-20 | a confirmed row stays confirmed, with all its fields unless the update is itself a confirmation |
| ActivityHistory.ConfirmedHashStaysWhen | native-wallet-original/src/ui/utils/transaction-activity.js:10-25 | a hash once shown as confirmed stays so exactly when a row the update leaves alone shows it, or the row whose hash the merged one takes over has it |
| ActivityHistory.ConfirmationCanBeReplaced | native-wallet-original/src/ui/utils/transaction-activity.js:16-20 | a concrete update that loses it: a confirmation of the same activity under another hash |

## Left out

- Keccak itself, the WASM binaries and every hardness assumption: keccak is a parameter, and the batch kernel's permutation a second one.
- The counter ("+C") profiles end to end: no shipped set reaches them, and their offsets and target sums are not part of this model; `grindWotsCountBatched` with them.
- Soundness.AcceptedForTwoMessages: for sets with a FORS tree, a geometry that fits the address fields and a domain string of neither 20 nor 26 bytes, as the shipped one has.
- RSearch.RgrindChunkBatched: states equality for the uncompacted message layout only, because the windowed code always writes that layout.
- BatchedTwins.ForsSubtreeBatched: keeps the node arrays between batches as sequences of nodes; the batch buffer itself is an array with offsets.
- BatchedTwins.WotsPkRangeBatched: takes tree indices as numbers, whose address field is their low 32 bits; the big-integer form is only used by the scalar code.
- Hashing.ForsWord: shifts are unbounded before the cut to 32 bits, where the source's shift counts wrap at 32; tree heights of 32 and more are out of reach of both.
- Hex strings, message and profile parsing, and the lookup of a parameter set by name: inputs are byte strings and a parameter set.
- WorkerPool.SphincsPool.RunAll: promises are numbered entries of a map; terminating the pool, and a rejection handed over before other tasks have finished, are not modelled.
- ParallelSigner.SphincsSignAsyncStd: the in-process fallback pool used without workers is not modelled separately.
- SendProtocol.UnresolvedIsJournalled: holds while the lock is not taken from a working context; `LeasedSend` says when that is so. The checks that the wallet is still unlocked and on the same account are covered as a failure that may come at any await.
- LeasedSend.RunRefines: each lock operation is one step there, as in `LockProtocol`, and names drawn for two sends are taken to differ.
- SendProtocol.EntriesOutliveCrashes: storage writes happen or the context dies, and account addresses are compared as given.
- SigningLock.SigningLock.Get: the awaits inside the lookup are not interleaved here; `LockInterleaving` has them as steps, with storage read when its answer is handled, and `AloneIsAtomic` ties the two. Failing storage calls are not modelled.
- SigningLock.SigningLock.Acquire: the same, and the queue of acquisitions is in `LockInterleaving`, where a lease is stored when it is granted.
- SigningLock.SigningLock.Renew: the same as for the lookup.
- SigningLock.SigningLock.Release: the same as for the lookup.
- The vault, account derivation and contract bytecode checks: functions of the codec and one flag of the node's answers.
- QueueProtocol.OneAtATimeInOrder: writing the history row of a queued job is one event that may fail; the contents of the row are not modelled.
- BatchSchedule.EveryRunIsPaced: in the whole scheduler doubles are reals, so rounding is not modelled.
- CandidateOrder.SendersStayTogether: transactions without a sender or a hash are not modelled, and the sort is any permutation the comparator accepts.
- AggregateHeader.AggregatePreimage: starts from the encoded base header; building that header, and hashing the result, are not part of this model.
- BlockScan.ScanIncoming: which transfers a block contains, and receipts that cannot be read, are not modelled; only which blocks were handed over.
- BlockScanner.BackfillCompletes: claims nothing when a fetch fails, where the cursor may pass a missing block.
- ActivityHistory.OneRowInPlace: a row is a map of strings, and a field set to an undefined value is an absent one.
- ActivityHistory.BelongsExactlyWhen: letters are folded within ASCII, which is all that hex strings hold.
- User interface, portal, explorer, faucet, build and overlay scripts, the proving workers and the SSZ and JSON adapters.
