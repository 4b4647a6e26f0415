# A verified model of a C++ blockchain node

This Dafny project models the parts of a blockchain node whose correctness depends on several functions working
together, and proves what they are for:

- **rdPoS consensus**: the seeded shuffle that orders the validators, the validator mempool, block validation, the
  commit-reveal protocol over every interleaving of its steps, its progress, and the creator's assembly of a block.
- **Storage**: the recent chain, its indexes, the read caches and the database behind them, against one plain history.
- **Byte formats**: the RLP forms of both transaction kinds, the block container with its parallel decoder and its
  skip-to-index extraction, and the Solidity ABI head/tail encoding.
- **Account state**: validation with its mempool shortcut, transaction and block processing, replay protection, the
  mempool refresh.
- **Contracts**: ERC-20, the ERC-20 wrapper, the native wrapper and the overlay of native balances.

`dafny verify dfyconfig.toml` checks the whole project.

## How the model is built

Code that changes things step by step is modelled by classes and by methods with loops. Each is proved against a
specification function or an invariant, and the results are proved about those. What the source computes in an
expression is a function. Where a proof only puts other lemmas together, `hide` keeps definitions out of it.

Conventions that hold everywhere:

- `None` stands for an exception. Checked 256-bit arithmetic that overflows is `None` or the verdict `Overflow`; a
  read past the end of a buffer, which the source does not always prevent, is `None` too. 64-bit registers wrap
  (`Wrap64`).
- Keccak, signing, key recovery and public keys are function-valued fields of `Crypto`. Nothing is assumed about them
  except by a `requires` that names the values concerned: no collision among the seeds of a round, among the hashes of
  a Merkle tree, among the blocks and transactions of a history; a signature that recovers its key.
- The clock, the private key, random seeds, the outcome of a foreign contract call and the order in which an unordered
  map is traversed are parameters or arbitrary choices.
- `minValidators` is a symbolic `m`.
- Safe variables of contracts are values that a call replaces when it returns and leaves alone when it throws.
- Locks are not modelled: the operations of a class are atomic. Where the source lets go of a lock in between, the
  model has separate steps: a worker's height may lag behind its node, and other steps may come between reading the
  size of the mempool and sending the seed.

## Where the code and what it promises part

Each of these is proved: the code is modelled as it is, and a lemma states exactly when it does what it promises.

- Data of 55 bytes is written with the prefix the decoders take for a long string, nonce and gas limit are read back
  into 64 bits, and lists of at most 55 bytes are refused: `TxBlocks.RoundTrip`, `TxValidators.RoundTrip`. A node can
  receive such data in another form, accept a block with it, and be unable to reload the block:
  `TxBlocks.ReceivedButLost`, `NodeCodec.StorableExactly`.
- Three forms on the wire are not those of RLP: a single byte of data below 128 gets a length prefix, and so do r and s
  below 128; a validator transaction writes a zero chain id or v as a zero byte:
  `RlpReference.PreimageIsCanonicalExactly`, `RlpReference.SerializedIsCanonicalExactly`,
  `RlpReference.ValidatorPreimageIsCanonicalExactly`, `RlpReference.ValidatorPayloadIsCanonicalExactly`.
- The ABI encoder gives an empty byte string a line of zeros: `AbiReference.SpecifiedExactly`.
- A Merkle proof reads past a layer when a node has no sibling: `Merkle.ProofDefined`, `Merkle.OddLastUnpaired`.
- Siblings are hashed in sorted order, so neither root nor block hash binds the order of transactions:
  `MerkleTwins.RootsEqualExactly`, `BlockBinding.HeaderBindsExactly`, `BlockBinding.SwappedDouble`.
- A comment asks for a timestamp higher than that of the latest block; an equal one passes: `State.State.PassedExactly`.
- Transactions of a block are validated against the accounts before the block only. Two transactions of one sender
  can both pass, and the one that cannot be paid has its value handed back although nothing was taken. For blocks of
  any length and any senders: `Accounts.NoneThrowsExactly`, `Accounts.PaidExactly`,
  `Processing.TransfersConserveExactly`; an example: `Accounts.RepeatedSenderExample`.
- A failed contract call returns its value to the sender once too often: `Processing.ConservedUnlessFailed`, and for
  whole blocks `Processing.BlockConserves`.
- A block that repeats a transaction passes validation. Memory then keeps the first place of the transaction and the
  database the last: `StorageIndexes.PlacesAgreeExactly`, `Ledger.TxAnswersUniqueExactly`. A transaction never repeats
  across blocks: `Replay.AcceptedTxsAreNew`, `Replay.NeverAcceptedAgain`.
- The creator waits for 2m pending transactions, but the mempool does not check that these are commitments and seeds:
  `Creator.FullMempoolIsReady`, `Creator.FullMempoolStalls`.
- A worker that is stopped while it waits for commitments may send its seed all the same:
  `RevealRuns.SafeExactly`, `RevealRuns.StoppedTooEarly`.
- A node that restarts forgets that it committed and may commit to another seed: `CommitOnce.CommitsOnceExactly`.
- Sending native tokens compares the amount with the receiver's balance: `Overlay.SendSucceeds`,
  `Overlay.PoorReceiverIsRefused`, and with them `NativeWrapper.WithdrawSucceeds`.
- The ERC-20 wrapper refuses to pay out a recorded balance in full: `Erc20Wrapper.LastUnitStays`.

## Model

| member | source | states |
|---|---|---|
| `CommitReveal.NoSeedBeforeAllCommitments` | src/core/rdpos.cpp:445-508 | In every state of every run of commits, deliveries, size readings, reveals, looks at new blocks, stops, proposals, acceptances, restarts and foreign messages, once a validator's seed for a height has been sent, all m participants of that height have sent their commitments, provided that waiting workers are not stopped or m is at most 1. |
| `RevealRuns.SafeExactly` | src/core/rdpos.cpp:482-507 | Every reachable state is safe if and only if no worker can be stopped while it waits or a round has at most one participant. |
| `RevealRuns.StoppedTooEarly` | src/core/rdpos.cpp:485-507 | For every setup with stops and two or more participants an unsafe state is reachable: the first one commits, is stopped and sends its seed. |
| `RevealRuns.SeedsAreSent` | src/core/rdpos.cpp:445-508 | For every number of participants there is a run in which all commit, the first one receives the commitments, waits and sends its seed. |
| `Progress.EveryHeightIsReached` | src/core/rdpos.cpp:356-508 | Whatever seed each validator chooses for each height, for every height below 2^64 there is a run in which all nodes get there and every block on the way draws its randomness from exactly the seeds chosen for it by the participants of its round, if the validators have keys and their commitments for a height do not collide. |
| `Progress.RoundCompletes` | src/core/rdpos.cpp:356-508 | From every reachable state in which all nodes are idle at the last block one whole round leads to such a state one block later: all commit, receive the commitments, reveal, and accept the block. |
| `CommitReveal.ObserveIsSafe` | src/core/rdpos.cpp:482-502 | A worker that reads a mempool size of m or more, or whose height is already on the chain, does so after all commitments of its height. |
| `CommitReveal.RevealedSeedOk` | src/core/rdpos.cpp:490-507 | What a worker sends after it let go of the lock is still preceded by all commitments, whatever happened in between. |
| `CommitReveal.AloneIsSafe` | src/core/rdpos.cpp:477-480 | A participant without others in its round has all commitments once it sent its own. |
| `CommitReveal.FullMempoolProves` | src/core/rdpos.cpp:482-502 | A mempool of m transactions, with or without seeds in it, means that all participants of the round have committed. |
| `CommitReveal.CommitmentsFill` | src/core/rdpos.cpp:236-288 | With one functor per sender, m commitments in a mempool come from m different participants. |
| `CommitReveal.BlockCommitted` | src/core/rdpos.cpp:66-212 | A block on the chain carries the commitments of all its participants. |
| `CommitReveal.PreparedFunctions` | src/core/rdpos.cpp:446-475 | The seed transaction a worker prepares opens the commitment it prepares. |
| `CommitReveal.StepKeeps` | src/core/rdpos.cpp:356-508 | Every step of the protocol keeps the invariant from which safety follows. |
| `CommitReveal.RunKeeps` | src/core/rdpos.cpp:356-508 | The invariant holds in every state of every run. |
| `CommitReveal.CreatorCannotChooseRandomness` | src/core/rdpos.cpp:108-210 | If validators commit once, any two acceptable blocks of a height built from whatever has been sent carry the same randomness. |
| `CommitOnce.RandomnessIsFixed` | src/core/rdpos.cpp:356-508 | In every run without restarts, any two acceptable blocks of a height carry the same randomness, whatever the workers did. |
| `CommitOnce.CommitsOnceExactly` | src/core/rdpos.cpp:382-412 | In every state of every run validators have committed at most once per height if and only if nodes do not restart. |
| `CommitOnce.RunOnce` | src/core/rdpos.cpp:356-412 | In every run without restarts, commitments of a worker go up to the height after the block it saw, and no two are for the same height. |
| `NodeRuns.NodesAgreeOnLeaders` | src/core/rdpos.cpp:41-49 | Two nodes that started from the same stored validators and have the same latest randomness agree on creator and participants, whatever arrived, was processed or restarted in between; the order is a permutation of the validators. |
| `NodeRuns.AlwaysSettled` | src/core/rdpos.cpp:214-226 | Between any two events of any run the random list is the shuffle of the validators by the latest block's randomness, the mempool is valid for the next height, and the validators never change. |
| `NodeRuns.EventSettles` | src/core/rdpos.cpp:214-288 | Arrival, block and restart each keep a node settled. |
| `NodeRuns.MempoolNeverOverflows` | src/core/rdpos.cpp:267-287 | In every state of every run the validator mempool holds at most 2m transactions. |
| `Leader.LoadValidators` | src/core/rdpos.cpp:41-43 | Whatever the order of the stored entries, the loaded list is strictly ascending and holds exactly them. |
| `Leader.AscendingUnique` | src/core/rdpos.cpp:41-48 | A set of validators has only one ascending list. |
| `Leader.RestartKeepsValidators` | src/core/rdpos.cpp:57-63 | Whatever part of the validators is stored, saving them and loading again gives the same list. |
| `Leader.RandomListIsPermutation` | src/core/rdpos.cpp:46-49 | The random list holds every validator exactly once. |
| `Leader.NodesAgree` | src/core/rdpos.cpp:46-49 | Equal sets of validators and equal randomness give equal random lists. |
| `Leader.LeaderIsDrawn` | src/core/rdpos.cpp:46-49 | The leader is the validator at the index that the hash of the randomness, read as a number, gives modulo their number; every next one is drawn in the same way from those still left, with one more hash each time. |
| `RandomGen.ShuffleFromPermutes` | src/utils/randomgen.h:50-58 | Shuffling permutes, for every seed and hash function. |
| `RandomGen.ShuffleDraws` | src/utils/randomgen.h:50-58 | At place i comes, of the elements still left, the one at the index that the seed, hashed i + 1 times and read as a number, gives modulo how many are left; the first of those left takes its place. |
| `RandomGen.ShuffleArranges` | src/utils/randomgen.h:52-57 | The shuffle is an arrangement by valid choices, each within what is left of the list; `RandomGen.ShuffleDraws` says which. |
| `RandomGen.ChoicesUnique` | src/utils/randomgen.h:52-57 | Different choices arrange a list of distinct elements differently. |
| `RandomGen.ChoicesExist` | src/utils/randomgen.h:52-57 | Every permutation of a list comes from some valid choices. |
| `RandomGen.RandomGen.ShuffleInPlace` | src/utils/randomgen.h:50-58 | Swapping in place yields the shuffle of the old contents, whose element at every place `RandomGen.ShuffleDraws` states, and the seed is hashed once per element. |
| `RandomGen.RandomGen.SetSeed` | src/utils/randomgen.h:36-37 | Replaces the seed. |
| `Round.ParseTxSeedList` | src/core/rdpos.cpp:308-318 | The randomness of a list of validator transactions: the hash of the seeds in it, in order. |
| `Round.FunctionExactly` | src/core/rdpos.cpp:324-341 | Data is a commitment or a seed if and only if it is 36 bytes long and its first four are the number 0xcfffe746 or 0x6fc5a2d6. |
| `Round.RoundRandomness` | src/core/rdpos.cpp:308-318 | The randomness of a valid round is the hash of exactly its m seeds, each 32 bytes long and opening its sender's commitment, or zeros for a round of nobody. |
| `Round.CommitmentsFixRandomness` | src/core/rdpos.cpp:182-209 | Two valid rounds with the same commitments have the same randomness unless two seeds collide. |
| `RdPoS.Engine.ValidateBlock` | src/core/rdpos.cpp:66-212 | Accepts a block if and only if it is finalized, signed by the first of the random list, and carries m commitments and m seeds of the next m validators in order, for its own height, pairwise opening, with distinct commitments. |
| `RdPoS.AcceptsExactly` | src/core/rdpos.cpp:66-212 | Which blocks are accepted, in fields and bytes: finalized, the key that of the first of the list, 2m validator transactions of its height, m different commitments; the i-th pair from participant i, 36 bytes each, with the functors as numbers, and the hash of the seed committed to. |
| `RdPoS.AcceptedRandomness` | src/core/rdpos.cpp:117-210 | The randomness of an accepted block is the hash of m seeds, the i-th sent and committed to by the i-th participant, or zeros if m is 0. |
| `RdPoS.DecodedRandomness` | src/utils/block.cpp:112-118 | The same for every block that was decoded and accepted: the decoder itself compares the randomness. |
| `RdPoS.CollectPairs` | src/core/rdpos.cpp:117-136 | Succeeds if and only if senders are in order; the map then has the hashes of the commitments as keys. |
| `RdPoS.SizeMeansDistinct` | src/core/rdpos.cpp:138-141 | The map has m entries if and only if the commitments have different hashes. |
| `RdPoS.MapCoversPairs` | src/core/rdpos.cpp:138-210 | With m entries, checking the map is checking every pair of the block. |
| `RdPoS.CheckPairs` | src/core/rdpos.cpp:144-210 | Whatever the order of the map, all its pairs open if and only if the loop says so. |
| `RdPoS.CheckPair` | src/core/rdpos.cpp:145-209 | One pair: functions, senders, lengths and hash. |
| `RdPoS.Engine.ProcessBlock` | src/core/rdpos.cpp:214-226 | A finalized block empties the mempool and draws the round of its randomness; any other block changes nothing. |
| `RdPoS.Engine.AddValidatorTx` | src/core/rdpos.cpp:236-288 | Changes the mempool exactly as specified for every arriving transaction, data too short for a functor included, and keeps the engine valid. |
| `RdPoS.AddTxKeepsValid` | src/core/rdpos.cpp:236-288 | Every arrival keeps: next height, participant, at most two transactions per sender with different functors. |
| `RdPoS.WelcomeExactly` | src/core/rdpos.cpp:236-288 | A transaction is welcome if and only if it is pending already or can be added and leave the mempool valid; a welcome one is pending afterwards, any other changes nothing. |
| `RdPoS.MempoolBound` | src/core/rdpos.cpp:267-287 | A valid mempool holds at most 2m transactions. |
| `RdPoS.FullMempoolCovers` | src/core/rdpos.cpp:482-502 | A mempool with as many transactions as its limit per sender allows holds that many of every participant. |
| `RdPoS.SameSender` | src/core/rdpos.cpp:268-271 | Collects exactly the transactions of one sender, each once. |
| `RdPoS.Engine.IsParticipant` | src/core/rdpos.cpp:252-266 | Finds a sender among positions 1 to m of the random list, and nowhere else. |
| `RdPoS.Engine.DrawRound` | src/core/rdpos.cpp:221-224 | The random list becomes the shuffle of the validators by the seed. |
| `RdPoS.Engine.constructor` | src/core/rdpos.cpp:41-50 | A new engine has exactly the stored validators and the round of the latest block. |
| `Creator.ProposeBlock` | src/core/blockchain.cpp:89-155 | A node waits if and only if fewer than 2m validator transactions or no transaction is pending; otherwise its assembly never ends if and only if something other than commitments and seeds is pending, and it proposes a block if and only if only these are pending, every seed opens its commitment, the clock is not behind and its key leads the random list. What it proposes passes its own validation and carries all pending transactions; the block it proposes passes validation, carries all pending transactions, follows the latest block at the time of the clock, and its randomness is the hash of the m seeds in it. |
| `Creator.CreateBlock` | src/core/blockchain.cpp:103-149 | With 2m validator transactions pending, assembly ends if and only if they are commitments and seeds; a block results if and only if the clock is not behind either, carries all pending transactions, has a fitting header, and is accepted if and only if all seeds open and the key is that of the creator. Its timestamp is the clock and its randomness that of its transactions. |
| `Creator.SignBlock` | src/core/blockchain.cpp:138-149 | The signed block is the draft of the picked and all pending transactions, finalized; there is none if and only if the clock is behind. |
| `Creator.ProposalPasses` | src/core/blockchain.cpp:138-153 | The assembled and signed block passes validation of the next block exactly when every pending seed opens its commitment and the signer leads the random list. |
| `Creator.AssembledRound` | src/core/blockchain.cpp:108-144 | The assembled transactions are a valid round if and only if every pending seed opens the commitment of its sender. |
| `Creator.FullMempoolIsReady` | src/core/blockchain.cpp:91-95 | With 2m transactions pending, every participant has a commitment and a seed there if and only if nothing else is pending. |
| `Creator.FullMempoolStalls` | src/core/rdpos.cpp:274-281 | For every number of participants, two transactions of each with other functors are accepted, fill the mempool, and leave the assembly without end. |
| `Creator.FullMempoolLegible` | src/core/rdpos.cpp:274-281 | In a full mempool no data of a participant is too short for a functor, so the assembly never reads past the end of any. |
| `Creator.Assemble` | src/core/blockchain.cpp:111-135 | Both assembly loops: picked transactions come in the order of the random list; without end only if a participant's transaction is not pending; past the end of data only if a participant has data too short for a functor. |
| `Creator.FindTx` | src/core/blockchain.cpp:113-122 | One pass over the mempool finds a fitting transaction, or none although all can be read, or reads past the end of data too short for a functor. |
| `Creator.FillBlock` | src/core/state.cpp:281-287 | Appends every pending transaction exactly once. |
| `Creator.AppendAll` | src/core/blockchain.cpp:142-144 | Appends validator transactions in order and changes nothing else. |
| `Creator.CreatorIsRecognized` | src/utils/block.cpp:227-228 | Signing with the creator's key is recognized as the creator, if recovery undoes signing. |
| `Merkle.BuildTree` | src/utils/merkle.cpp:22-29 | The layer loop ends with a single root above every nonempty layer. |
| `Merkle.BuildLayer` | src/utils/merkle.cpp:3-20 | Each pair of neighbours hashed in sorted order, a last one kept; `Merkle.SmallerFirst` says which of two comes first. |
| `Merkle.SmallerFirst` | src/utils/merkle.cpp:11-12 | Two hashes are fed to the hash function the smaller one first, as numbers. |
| `Merkle.GetProof` | src/utils/merkle.cpp:31-44 | The siblings on the path to the root, or an out-of-range read. |
| `Merkle.Verify` | src/utils/merkle.cpp:46-59 | Accepts if and only if folding the proof onto the leaf gives the root. |
| `Merkle.ProofDefined` | src/utils/merkle.cpp:37-42 | A proof can be read if and only if every node on the path has a sibling. |
| `Merkle.ProofVerifies` | src/utils/merkle.cpp:31-59 | Every proof that can be read verifies its leaf. |
| `Merkle.PowerOfTwoPaired` | src/utils/merkle.cpp:37-42 | With a power of two of leaves every path has its siblings. |
| `Merkle.OddLastUnpaired` | src/utils/merkle.cpp:37-42 | The last leaf of an odd number above one never has a proof. |
| `Merkle.VerifiedIsLeaf` | src/utils/merkle.cpp:46-59 | In a full tree without collisions, what a proof of the right length verifies is a leaf. |
| `Merkle.PowerOfTwoVerified` | src/utils/merkle.cpp:46-59 | The same for every tree over 2^k leaves and proofs of k hashes. |
| `Merkle.PowerOfTwoFull` | src/utils/merkle.cpp:22-29 | A tree over 2^k leaves is full and has k + 1 layers. |
| `MerkleTwins.RootsEqualExactly` | src/utils/merkle.cpp:3-29 | Barring collisions, two lists of items have the same root if and only if their trees are equal up to swapping siblings. |
| `MerkleTwins.RootIsTreeHash` | src/utils/merkle.cpp:3-29 | The root the layers lead to is the hash of the tree. |
| `MerkleTwins.SwapKeepsRoot` | src/utils/merkle.cpp:9-14 | Swapping the first two items never changes the root. |
| `BlockBinding.HeaderBindsExactly` | src/utils/block.cpp:95-127 | Barring collisions, a finalized block stays finalized with other transactions under the same header if and only if their trees of hashes are equal up to swapping siblings. |
| `BlockBinding.FinalizedRoots` | src/utils/block.cpp:106-118 | The two roots of a finalized block are those over the twice-hashed transactions of their own kind, in order. |
| `BlockBinding.SwappedDouble` | src/utils/block.cpp:95-127 | Every finalized block with two transactions has a double with the first two swapped, the same hash and the same signature. |
| `Merkle.GetRoot` | src/utils/merkle.cpp:22-29 | The top of the tree is the root of the leaves. |
| `TxBlocks.RoundTrip` | src/utils/tx.cpp:3-199 | Decoding undoes encoding of a signed transaction if and only if nonce and gas limit fit 64 bits, the data is not 55 bytes long and the list is longer than 55 bytes. |
| `TxBlocks.ParsedIsWellSigned` | src/utils/tx.cpp:3-199 | Whatever is decoded is well signed, with nonce and gas limit below 2^64. |
| `TxBlocks.ParsedRoundTripsExactly` | src/utils/tx.cpp:3-373 | A decoded transaction survives being encoded again if and only if its data is not 55 bytes and its list is longer than 55 bytes. |
| `TxBlocks.ReceivedButLost` | src/utils/tx.cpp:137-159 | Every well-signed transaction with 55 bytes of data can be received, with its data in long form, and does not survive being encoded again. |
| `TxBlocks.PreimageInjective` | src/utils/tx.cpp:226-350 | Transactions with the same signing preimage agree on every unsigned field, for all data lengths. |
| `TxBlocks.TotalSizeCorrect` | src/utils/tx.cpp:239-261 | The size computed in advance is the number of bytes emitted after the list header. |
| `TxBlocks.SignedIsWellSigned` | src/utils/tx.cpp:201-224 | What the signing constructor makes satisfies what the round trip asks for. |
| `TxBlocks.RlpSerialize` | src/utils/tx.cpp:226-373 | The appending serializer emits the specified bytes, with and without signature; `RlpReference.PreimageIsCanonicalExactly` and `RlpReference.SerializedIsCanonicalExactly` compare them with EIP-1559. |
| `RlpReference.PreimageIsCanonicalExactly` | src/utils/tx.cpp:226-350 | What is signed is the concatenation of the nine items of EIP-1559, each in the form of appendix B of the Yellow Paper, if and only if the data is not a single byte below 128. |
| `RlpReference.SignatureFollows` | src/utils/tx.cpp:226-373 | What is sent is what was signed, followed by v, r and s. |
| `RlpReference.SerializedIsCanonicalExactly` | src/utils/tx.cpp:226-373 | What is sent is the type byte and the RLP list of the twelve items if and only if also neither r nor s is a positive number below 128. |
| `TxBlocks.SignsExactly` | src/utils/tx.cpp:201-224 | Signing succeeds if and only if the key is the sender's own, the signature recovers it, r and s are between 0 and the order of the curve and v is 0 or 1. |
| `TxBlocks.MarksExactly` | src/utils/tx.cpp:3-187 | The decoder refuses any other type byte, any other length of an address, any access list that is not empty and any v but 0 and 1. |
| `TxBlocks.SigReadExactly` | src/utils/tx.cpp:161-187 | A signature is read if and only if v is 0, 1 or empty and r and s take at most 32 bytes each, and what is read are these numbers. |
| `TxBlocks.TotalSize` | src/utils/tx.cpp:228-261 | The running total is the size of the payload. |
| `TxBlocks.ParseBytes` | src/utils/tx.cpp:3-199 | The cursor parser computes the specified decoding, including every refusal. |
| `TxBlocks.ReadHead` | src/utils/tx.cpp:28-135 | The fields before the data, read by a moving cursor. |
| `TxBlocks.ReadSig` | src/utils/tx.cpp:161-187 | Access list and signature, read by a moving cursor. |
| `TxValidators.RoundTrip` | src/utils/tx.cpp:393-500 | Decoding undoes encoding of a signed validator transaction if and only if the chain id is at least 1, v fits 64 bits, the data is not 55 bytes long and the list is longer than 55 bytes. |
| `TxValidators.ParsedIsWellSigned` | src/utils/tx.cpp:479-499 | Whatever is decoded is signed by its sender, with a positive chain id and the recovery id in v. |
| `TxValidators.ParsedRoundTripsExactly` | src/utils/tx.cpp:393-621 | A decoded validator transaction survives being encoded again if and only if its data is not 55 bytes and its list is longer than 55 bytes. |
| `TxValidators.ChainIdSurvives` | src/utils/tx.cpp:479-491 | The chain id comes back out of v, summed modulo 2^64, if and only if it is positive and the sum did not wrap. |
| `TxValidators.AuthenticateRestores` | src/utils/tx.cpp:479-499 | Authentication gives back sender and chain id if and only if v holds them. |
| `TxValidators.PreimageInjective` | src/utils/tx.cpp:525-621 | Validator transactions with the same signing preimage agree on data, height and chain id. |
| `TxValidators.TotalSizeCorrect` | src/utils/tx.cpp:534-552 | The size computed in advance is the number of bytes emitted after the list header. |
| `TxValidators.SignedIsWellSigned` | src/utils/tx.cpp:502-523 | What the signing constructor makes satisfies what the round trip asks for. |
| `TxValidators.RlpSerialize` | src/utils/tx.cpp:525-621 | The appending serializer emits the specified bytes, with and without signature; `RlpReference.ValidatorPreimageIsCanonicalExactly` and `RlpReference.ValidatorPayloadIsCanonicalExactly` compare them with RLP. |
| `RlpReference.ValidatorPreimageIsCanonicalExactly` | src/utils/tx.cpp:525-621 | What a validator signs is the RLP list of data, height, chain id and two empty strings if and only if the data is not a single byte below 128 and the chain id is not zero. |
| `RlpReference.ValidatorPayloadIsCanonicalExactly` | src/utils/tx.cpp:525-621 | What is sent is the RLP list of data, height, v, r and s if and only if each of them is in canonical form. |
| `TxValidators.SignsExactly` | src/utils/tx.cpp:502-523 | Signing succeeds if and only if the key is the sender's own, the signature recovers it and is in range. |
| `TxValidators.SigReadExactly` | src/utils/tx.cpp:466-478 | r and s are read if and only if they take at most 55 bytes each and are below 2^256, and what is read are these numbers. |
| `TxValidators.ParseBytes` | src/utils/tx.cpp:393-500 | The cursor parser computes the specified decoding, including every refusal. |
| `Rlp.DataTaken` | src/utils/tx.cpp:137-159 | Data of every length but 55 is read back, whatever follows it. |
| `Rlp.DataTakenReference` | src/utils/tx.cpp:137-159 | A decoder that takes 0xb7 for a short string reads back data of every length. |
| `Rlp.UintPrefixFree` | src/utils/tx.cpp:274-335 | No encoded number is a prefix of another's. |
| `Rlp.ListInjective` | src/utils/tx.cpp:263-272 | A list header and its payload determine each other. |
| `Rlp.ReadUint` | src/utils/tx.cpp:28-43 | A number read by a moving cursor. |
| `Rlp.UintReadExactly` | src/utils/tx.cpp:28-43 | A number is read from any first byte: itself or zero up to 0x80, otherwise as many bytes as announced, refused if they are missing or more than allowed. |
| `Rlp.LongReadExactly` | src/utils/tx.cpp:173-187 | A number with a length prefix is refused if and only if there is no prefix, bytes are missing, the length is not allowed or the number is too large. |
| `Rlp.ReadData` | src/utils/tx.cpp:137-159 | Data read by a moving cursor. |
| `Rlp.DataReadExactly` | src/utils/tx.cpp:137-159 | Data is read from any first byte: itself below 0x80, a length up to 0xb6, from 0xb7 on the length of a length, refused if bytes are missing. |
| `Rlp.ReadListHeader` | src/utils/tx.cpp:10-26 | The list header and its two size checks. |
| `Rlp.ListReadExactly` | src/utils/tx.cpp:10-26 | Only the long form of a list is read, and only if exactly as many bytes follow as it announces. |
| `Rlp.AppendData` | src/utils/tx.cpp:337-347 | Data appended to a buffer. |
| `Rlp.AppendListHeader` | src/utils/tx.cpp:263-272 | The list header appended to a buffer. |
| `Bytes.BytesRequired` | src/utils/utils.h:357-363 | The number of bytes of the minimal big-endian form. |
| `Bytes.UintToBytes` | src/utils/utils.h:371-376 | The minimal big-endian form, written backwards. |
| `Bytes.FromBigEndianOfBigEndian` | src/utils/utils.h:321-376 | Reading undoes writing. |
| `Bytes.OrderIsNumeric` | src/utils/merkle.cpp:11-12 | Byte strings of one length are ordered as the numbers they denote. |
| `Crypto.AddressIsLowBits` | src/utils/ecdsa.cpp:104-107 | An address is the low 160 bits of the hash of the key without its first byte. |
| `Crypto.SignatureIsOneNumber` | src/utils/ecdsa.cpp:33-47 | A signature is r, s and v in this order, most significant first. |
| `Blocks.RoundTrip` | src/utils/block.cpp:4-184 | Parsing the bytes of a finalized block whose transactions survive their own codec rebuilds the block and passes every check. |
| `Blocks.RoundTripExactly` | src/utils/block.cpp:4-184 | Parsing rebuilds a finalized block if and only if every transaction survives its own codec. |
| `Blocks.ParsedIsFinalized` | src/utils/block.cpp:95-127 | Whatever is parsed has the right heights, roots, randomness, signature range and recovered key. |
| `Blocks.CheckedExactly` | src/utils/block.cpp:95-127 | The checks pass if and only if all validator transactions have the height of the block, the signature is in range, and finalizing the same contents again would lead to the same header. |
| `Blocks.HeaderBinds` | src/utils/block.cpp:137-152 | Equal headers have equal fields. |
| `Blocks.ExtractFinds` | src/core/storage.cpp:104-116 | Skipping to index i in the bytes of a block finds its i-th transaction. |
| `Blocks.GetTxFromBlockWithIndex` | src/core/storage.cpp:104-116 | The skipping loop extracts the transaction at the index, for all bytes. |
| `Blocks.FinalizeChecks` | src/utils/block.cpp:210-231 | A finalized block passes the checks made on parsed blocks and keeps its transactions, parent and height. |
| `Blocks.SerializeBlock` | src/utils/block.cpp:154-184 | Writing zeros and patching the start of the validator transactions later gives the specified bytes. |
| `Blocks.FieldsAtOffsets` | src/utils/block.cpp:137-184 | Where in the bytes every field, the transactions and the validator transactions are, and that the block hash is the hash of bytes 65 to 208. |
| `Blocks.ParseBytes` | src/utils/block.cpp:4-135 | The parser, with any number of threads, computes the one specified parse. |
| `Blocks.SealBlock` | src/utils/block.cpp:106-127 | The checks after decoding, and the recovered key. |
| `Blocks.BlockBuilder.AppendTx` | src/utils/block.cpp:188-197 | Appends unless finalized, and changes nothing else. |
| `Blocks.BlockBuilder.AppendTxValidator` | src/utils/block.cpp:199-208 | Appends unless finalized, and changes nothing else. |
| `Blocks.BlockBuilder.FinalizeBlock` | src/utils/block.cpp:210-231 | Succeeds if and only if not finalized and not earlier than the draft; then roots, randomness, signature and key are those of the block. |
| `Frames.DecodeInParallel` | src/utils/block.cpp:47-93 | For every thread count of at least 1 and every number of transactions, the joined results are those of sequential decoding, failures included. |
| `Frames.SharesSumUp` | src/utils/block.cpp:48-51 | The shares of the threads sum up to the number of transactions. |
| `Frames.DecodeSplit` | src/utils/block.cpp:57-86 | Decoding a + b items is decoding a items and then b items from where the first a end. |
| `Frames.DecodeSequentially` | src/utils/block.cpp:41-46 | The sequential loop. |
| `Frames.SkipShare` | src/utils/block.cpp:79-85 | The start of the next thread is where its first transaction begins. |
| `Frames.JoinFutures` | src/utils/block.cpp:88-92 | Joining in order, failing if any part failed. |
| `Frames.CountItems` | src/utils/block.cpp:17-33 | The counting loop counts the framed items up to the end. |
| `Frames.PackedDecodes` | src/utils/block.cpp:41-46 | Items written one after the other are decoded one after the other. |
| `Frames.DecodedApart` | src/utils/block.cpp:41-46 | Packed items that decode together decode one by one. |
| `NodeCodec.BlockTravels` | src/utils/block.cpp:4-184 | With the node's own transaction codecs: a finalized block of signed transactions comes back from its bytes, and so does each transaction alone. |
| `NodeCodec.BlockIsStorable` | src/core/storage.cpp:104-116 | Such blocks survive the way into the database and back. |
| `NodeCodec.StorableExactly` | src/utils/block.cpp:4-184 | A finalized block of received transactions can be reloaded from its bytes if and only if none of them has 55 bytes of data or a list of at most 55 bytes. |
| `NodeCodec.FiftyFiveBytesUnreadable` | src/utils/tx.cpp:337-347 | One transaction with 55 bytes of data makes a block unreadable. |
| `Storage.Storage.GetBlock` | src/core/storage.cpp:230-254 | Missing if and only if the history has no such block; the block of the history, from chain, cache or database, if it is in memory or survives its own bytes. The storage stays valid. |
| `Storage.Storage.GetBlockAt` | src/core/storage.cpp:256-283 | Missing if and only if the history is not that long; the block at that height if it is in memory or survives its own bytes. |
| `Storage.Storage.GetTx` | src/core/storage.cpp:299-333 | Missing if and only if the history has no such transaction; the transaction and a place of it if it is in memory or its block survives its own bytes. |
| `Storage.Storage.BlockExists` | src/core/storage.cpp:200-213 | Not found if and only if no block of the history has the hash; otherwise found where it says. |
| `Storage.Storage.BlockExistsAt` | src/core/storage.cpp:215-228 | Not found if and only if the history is not that long. |
| `Storage.Storage.TxExists` | src/core/storage.cpp:285-297 | Not found if and only if no transaction of the history has the hash. |
| `Storage.Storage.TxOnChain` | src/core/storage.cpp:308-314 | The hash of the transaction found in memory always matches. |
| `Storage.Storage.CacheTx` | src/core/storage.cpp:319-330 | A transaction cut out of its stored block is the one of the history, if the block survives its bytes, and is cached. |
| `Storage.Storage.CacheBlock` | src/core/storage.cpp:245-251 | A block read from the database is the one of the history, if it survives its bytes, and is cached. |
| `Storage.Storage.PushBack` | src/core/storage.cpp:118-143 | Accepts a block if and only if it names the last one as its parent and is one higher, whether it survives its own bytes or not; the history then grows by it, otherwise nothing changes. |
| `Storage.Storage.Latest` | src/core/storage.cpp:405-408 | The last block of the history. |
| `Storage.Open` | src/core/storage.cpp:3-47 | Loading a database image restores the history it holds, with the last 501 blocks or all in memory, if these survive their bytes; an empty one becomes the genesis block. |
| `Storage.Storage.Shutdown` | src/core/storage.cpp:49-83 | The database then holds the whole history. |
| `Storage.Restart` | src/core/storage.cpp:3-83 | A restart keeps the history, whatever was in memory and in the caches, if its recent blocks survive their bytes. |
| `Ledger.AnswersAreUnique` | src/core/storage.cpp:230-254 | A history determines the answer to a lookup by hash, so lookups that keep the history cannot change later answers. |
| `Ledger.TxAnswersAreUnique` | src/core/storage.cpp:299-333 | A history in which no transaction repeats determines the answer to a lookup of a transaction. |
| `Ledger.TxAnswersUniqueExactly` | src/core/storage.cpp:299-333 | Lookups of transactions have one answer each if and only if no transaction repeats. |
| `Ledger.TxsDistinctExactly` | src/core/storage.cpp:139-142 | A block of new transactions keeps the history without repetition if and only if it repeats none itself. |
| `Ledger.HistoryGrows` | src/core/storage.cpp:118-131 | A block with the right parent and height and a new hash keeps the history linked, with consecutive heights and no block repeated. |
| `Ledger.HistoryIsLinked` | src/core/storage.cpp:118-131 | In a history every block but the first names the one before it, heights count from zero and no hash repeats. |
| `StorageIndexes.LookupBlock` | src/core/storage.cpp:200-254 | What the chain index holds under a hash is the block of the history, and so is what the database holds if the block survives its bytes; under other hashes there is none. |
| `StorageIndexes.LookupTx` | src/core/storage.cpp:285-333 | The same for transactions, including the decoding of a stored record and the extraction from the stored block. |
| `StorageIndexes.TxKnown` | src/core/storage.cpp:285-297 | A transaction is in memory, cache or database if and only if the history has it. |
| `StorageIndexes.PlaceRoundTrip` | src/core/storage.cpp:66-70 | A stored record of hash, 32-bit index and 64-bit height is read back. |
| `StorageIndexes.PlaceIsOneNumber` | src/core/storage.cpp:66-70 | A stored record is the hash, the index in 32 bits and the height in 64 bits, in this order, most significant first. |
| `StorageIndexes.IndexTxs` | src/core/storage.cpp:139-142 | The loop enters the transactions of a block and leaves earlier entries alone. |
| `StorageIndexes.BlockPlaced` | src/core/storage.cpp:62-142 | Entered into memory or put into the database, the index holds the hashes covered before and those of the block, no others, each with a place where it is. |
| `StorageIndexes.PlacesAgreeExactly` | src/core/storage.cpp:62-142 | Inserting into memory and putting into the database give the transactions of a block the same places if and only if it repeats none. |
| `StorageIndexes.PushBack` | src/core/storage.cpp:118-143 | Accepts a block if and only if it names the last one as its parent and is one higher; otherwise nothing changes. |
| `StorageIndexes.BackAgrees` | src/core/storage.cpp:132-142 | Chain, hash index, height index and transaction index together then agree with the longer history. |
| `StorageIndexes.PushFront` | src/core/storage.cpp:145-170 | Accepts a block if and only if the first one names it as its parent and is one higher; otherwise nothing changes. |
| `StorageIndexes.FrontAgrees` | src/core/storage.cpp:159-169 | With the block before the first one entered, memory agrees with the history from it on. |
| `StorageIndexes.LoadedPrecedes` | src/core/storage.cpp:145-157 | Loading never meets a broken link. |
| `StorageIndexes.LoadMemory` | src/core/storage.cpp:9-44 | Exactly the latest block and up to 500 before it are in memory, agreeing with the history, if all of them survive their bytes. |
| `StorageIndexes.SaveMemory` | src/core/storage.cpp:49-83 | Writing what is in memory behind what is already stored makes the database complete. |
| `StorageIndexes.SaveTxs` | src/core/storage.cpp:62-72 | The records of a block's transactions, replacing earlier ones. |
| `StorageIndexes.Initialize` | src/core/storage.cpp:85-102 | A database without a latest block gets the genesis block. |
| `Accounts.PreStateValidationSuffices` | src/core/state.cpp:240-263 | For transfers of distinct senders valid before the block, processing never throws, the total falls by exactly the fees, and each sender's nonce rises by one. |
| `Accounts.TransferEffect` | src/core/state.cpp:122-154 | A valid transfer succeeds, burns its fees, counts its nonce, and no other account loses anything. |
| `Accounts.NoneThrowsExactly` | src/core/state.cpp:122-154 | A block of transfers, of any length and any senders, is processed without exception if and only if at every position the sender can pay from its balance before the block and what the block brought and took so far, and the receiver does not overflow. |
| `Accounts.PaidExactly` | src/core/state.cpp:240-263 | With the currency in existence below 2^256, paying alone decides. |
| `Accounts.PaidBlockEffect` | src/core/state.cpp:122-154 | A block that throws nowhere leaves every account its balance plus what it received less what it spent. |
| `Accounts.RepeatedSenderExample` | src/core/state.cpp:122-154 | Ten units sent twice: both transactions pass, twenty units result. |
| `Accounts.UnpaidTransferMints` | src/core/state.cpp:130-152 | A transaction that cannot be paid, whatever it calls, adds its value to the total. |
| `Accounts.FailedCallMints` | src/core/state.cpp:142-152 | A failed call, payable or not, adds its value to the total; `Accounts.FailedCallPays` and `Accounts.BalancesAfter` say who has it. |
| `Accounts.NonceAfter` | src/core/state.cpp:153 | Whatever becomes of a transaction, its sender's nonce rises by one and no other changes. |
| `Accounts.BalancesAfter` | src/core/state.cpp:122-154 | The balance of every account after a transaction, for every outcome, in value, gas limit and maximal fee: what the sender is charged and handed back, what the receiver keeps, and what a payable call that returns commits. |
| `Accounts.CrashesExactly` | src/core/state.cpp:142-152 | The exception handler itself throws if and only if the attempt threw and what it hands back does not fit the balance of the sender. |
| `Accounts.FailedCallPays` | src/core/state.cpp:142-152 | After a failed call the fees are gone; of a payable one the sender has the value back twice and the receiver nothing, of another the sender has it back once and the receiver keeps it. |
| `Accounts.VerdictExactly` | src/core/state.cpp:83-120 | Each verdict of validation in nonce, value, gas limit, maximal fee and the account of the sender. |
| `Processing.ConservedUnlessFailed` | src/core/state.cpp:130-153 | For every outcome of a call: exactly the fees leave the total if and only if the transaction can be paid for and its call, if there is one, returns or carries no value. |
| `Processing.ProcessedTotal` | src/core/state.cpp:130-153 | Every transaction, valid or not, changes the total by what it mints less its fees. |
| `Processing.ReturnedTotal` | src/core/state.cpp:361-366 | A call that returns, with an overlay reached by sending tokens, takes exactly the fees. |
| `Processing.BlockConserves` | src/core/state.cpp:252-263 | With total and values below 2^256, no block makes the exception handler throw, and exactly the fees leave the total if and only if every transaction is sound in its turn. |
| `Processing.TransfersConserveExactly` | src/core/state.cpp:240-263 | A block of transfers takes exactly its fees if and only if each can be paid from what its sender has left. |
| `Replay.NeverAcceptedAgain` | src/core/state.cpp:109-116 | In every run of validated blocks an accepted transaction has its sender's nonce again if and only if the sender has sent a multiple of 2^64 transactions since; before that it is never valid again, and no later block contains it. |
| `Replay.NonceIsCount` | src/core/state.cpp:153 | In every run an account's nonce counts what it sent, in 64 bits. |
| `Replay.AcceptedTxsAreNew` | src/core/state.cpp:240-246 | A block that passes validation brings only transactions new to the history, so the history stays without repetition if and only if the block repeats none. |
| `Replay.HistoryStaysCounted` | src/core/state.cpp:122-154 | Processing a block leaves every transaction of the history below its sender's nonce. |
| `Replay.NoncesCount` | src/core/state.cpp:153 | A block raises each 64-bit nonce by the number of transactions sent, whatever becomes of them. |
| `Mempool.AlwaysPayable` | src/core/state.cpp:294-302 | In every state of every run each pending transaction has its account's nonce and a cost within its balance. |
| `Mempool.EventKeepsPayable` | src/core/state.cpp:252-279 | Adding, crediting and processing a block each keep that. |
| `Mempool.ShortcutIsSound` | src/core/state.cpp:90-94 | Not validating a known transaction again gives the verdict validation would give. |
| `Mempool.Refresh` | src/core/state.cpp:156-178 | Leaves exactly the old transactions that are outside the block and valid in the new state; none of them makes validation throw. |
| `Mempool.RefreshedIsLargest` | src/core/state.cpp:156-178 | What is left is the largest part of the mempool that shares nothing with the block and is payable after it. |
| `Mempool.DropBlock` | src/core/state.cpp:157-164 | Drops the transactions of the block and no others. |
| `Mempool.Revalidate` | src/core/state.cpp:166-177 | Throws if and only if a cost overflows; otherwise keeps exactly the valid ones, although it fills the map its shortcut looks at. |
| `State.State.ProcessNextBlock` | src/core/state.cpp:252-279 | Rejects what validation refuses without a change to accounts, mempool, engine, generator or storage; otherwise accounts, mempool, history and round are those after the block, and the round is again the one of the latest stored block. A chain in which every block fits the one before stays such a chain. |
| `State.State.ValidateNextBlock` | src/core/state.cpp:205-250 | The verdict on height, parent, timestamp, rdPoS and transactions, exceptions included; `State.State.PassedExactly` states it in fields. |
| `State.State.PassedExactly` | src/core/state.cpp:205-250 | A block passes if and only if it names the latest one as its parent, is one higher and not older, is accepted by rdPoS, and each transaction is pending already or has its sender's nonce and a cost within its balance. |
| `State.State.ThrewExactly` | src/core/state.cpp:205-250 | Validation throws if and only if the header fits, rdPoS accepts, and the first transaction that does not pass has a cost of 2^256 or more. |
| `State.BuiltInOrder` | src/core/state.cpp:216-233 | In every chain built from passed blocks timestamps never go back, heights count up by one and every block names its parent. |
| `State.AllPassExactly` | src/core/state.cpp:240-246 | All transactions of a block pass if and only if each is pending already or has its sender's nonce and a cost within its balance. |
| `State.JudgeAllMeansAllValid` | src/core/state.cpp:240-246 | With the shortcut sound, a block's transactions pass if and only if each is valid against the accounts before the block. |
| `State.CheckTxs` | src/core/state.cpp:241-246 | The first verdict against the transactions of a block. |
| `State.State.ProcessTransaction` | src/core/state.cpp:122-154 | Debit, credit, call and handler step by step equal the specified effect on the accounts, whose every balance `Accounts.BalancesAfter` and every nonce `Accounts.NonceAfter` state. |
| `State.State.ProcessTransactions` | src/core/state.cpp:261-263 | One transaction after the other. |
| `State.State.AddTx` | src/core/state.cpp:294-302 | Inserts exactly valid unknown transactions and keeps all pending ones payable. |
| `State.State.AddBalance` | src/core/state.cpp:321-324 | Credits 1000 units of 10^18 unless that overflows, and keeps all pending transactions payable. |
| `State.State.Advance` | src/core/state.cpp:265-277 | The round changes to that of the block and the block is stored. |
| `Abi.RoundTrip` | src/contract/abi.cpp:422-454 | For every argument list over the ten types, decoding the encoding with the matching types returns the arguments. |
| `AbiReference.SpecifiedExactly` | src/contract/abi.cpp:9-212 | The encoder produces what section "Formal Specification of the Encoding" of the Solidity manual defines if and only if no byte string or string among the arguments and their elements is empty. |
| `Abi.OffsetsPointAtTails` | src/contract/abi.cpp:141-211 | The head of every dynamic argument is the position of its own tail. |
| `Abi.TailsAreContiguous` | src/contract/abi.cpp:141-211 | Tails start behind the heads, follow each other without gap or overlap, and end the encoding. |
| `Abi.BytesArrDecoded` | src/contract/abi.cpp:350-384 | An encoded array of byte strings is read back wherever it stands, through offsets that count from behind its length. |
| `Abi.LinesDecoded` | src/contract/abi.cpp:272-348 | An encoded array of fixed-size values is read back wherever it stands. |
| `Abi.BytesDecoded` | src/contract/abi.cpp:229-248 | An encoded byte string of any length is read back wherever it stands. |
| `Abi.LineReadExactly` | src/contract/abi.cpp:214-227 | What is read from any line: the number, its low 160 bits as an address, and whether its low 8 bits are 1. |
| `Abi.BytesReadExactly` | src/contract/abi.cpp:229-248 | Any data read as a byte string: refused if and only if the length or the announced bytes are missing. |
| `Abi.LinesReadExactly` | src/contract/abi.cpp:272-348 | Any data read as an array of lines: refused if and only if the length or an announced line is missing. |
| `Abi.ElementReadExactly` | src/contract/abi.cpp:363-381 | The element of an array of byte strings stands where the low 64 bits of its offset say, counted modulo 2^64 from behind the length. |
| `AbiLayout.HeadPointsAtTail` | src/contract/abi.cpp:129-211 | The layout of heads and tails: what is read as an offset is where the tail is. |
| `AbiLayout.LayoutLength` | src/contract/abi.cpp:141-211 | Nothing between, behind or on top of heads and tails. |
| `AbiLayout.WordIsPadded` | src/contract/abi.cpp:26-42 | The line that denotes a number is its minimal big-endian form, padded on the left. |
| `AbiCoder.EncodeArgs` | src/contract/abi.cpp:141-212 | The encoder's loop over heads, tails and the next offset produces the specified layout. |
| `AbiCoder.EncodeTail` | src/contract/abi.cpp:153-209 | The tail of a dynamic argument; the next offset moves by exactly its length. |
| `AbiCoder.EncodeByteStringArr` | src/contract/abi.cpp:60-83 | The three columns of an array of byte strings give offsets that point at their elements. |
| `AbiCoder.EncodeUint256` | src/contract/abi.cpp:9-16 | The line that denotes the number. |
| `AbiCoder.EncodeByteString` | src/contract/abi.cpp:26-34 | Length and padded data; the empty string takes a line of zeros. |
| `AbiCoder.EncodeUint256Arr` | src/contract/abi.cpp:36-42 | Length and lines of an array of numbers. |
| `AbiCoder.EncodeAddressArr` | src/contract/abi.cpp:44-50 | Length and lines of an array of addresses. |
| `AbiCoder.EncodeBoolArr` | src/contract/abi.cpp:52-58 | Length and lines of an array of booleans. |
| `AbiCoder.DecodeArgs` | src/contract/abi.cpp:422-454 | The decoder's loop computes the specified decoding, including every refusal. |
| `AbiCoder.ReadUints` | src/contract/abi.cpp:272-298 | An array of numbers, read line by line. |
| `AbiCoder.ReadAddresses` | src/contract/abi.cpp:300-325 | An array of addresses, read line by line. |
| `AbiCoder.ReadBools` | src/contract/abi.cpp:327-348 | An array of booleans, read line by line. |
| `AbiCoder.ReadByteStrings` | src/contract/abi.cpp:350-420 | An array of byte strings or strings, each read through its own offset. |
| `Erc20Wrapper.WrapperNeverOwesMore` | src/contract/erc20wrapper.cpp:65-88 | In every state of every run, for every token, the recorded balances together are at most what the wrapper holds, the balances together are the supply, and the wrapper grants no allowance. |
| `Erc20Wrapper.ReleaseNeverShort` | src/contract/erc20wrapper.cpp:65-83 | In every state of every run a withdrawal or transfer out succeeds if and only if the record exceeds the value. |
| `Erc20Wrapper.LastUnitStays` | src/contract/erc20wrapper.cpp:70 | A record can be withdrawn up to one unit less than itself, never in full. |
| `Erc20Wrapper.StepSolvent` | src/contract/erc20wrapper.cpp:65-88 | Every transaction on tokens or wrapper, successful or reverted, keeps the system solvent. |
| `Erc20Wrapper.DepositSolvent` | src/contract/erc20wrapper.cpp:85-88 | A deposit records what it pulled. |
| `Erc20Wrapper.ReleaseSolvent` | src/contract/erc20wrapper.cpp:65-83 | A release sends what it takes off the record. |
| `Erc20Wrapper.DepositEffect` | src/contract/erc20wrapper.cpp:85-88 | A deposit raises the record of its caller and no other by what it takes from the caller's tokens and allowance, and touches no other token. |
| `Erc20Wrapper.ReleaseEffect` | src/contract/erc20wrapper.cpp:65-83 | A payout lowers the record of its caller and no other by what its receiver gets from the wrapper's tokens, and touches no other token. |
| `Erc20Wrapper.PayoutEffect` | src/contract/erc20wrapper.cpp:65-83 | Withdrawing pays the caller, transferring out pays whom the caller names. |
| `Erc20Wrapper.TokenCallEffect` | src/contract/erc20.cpp:57-160 | Creating, transferring, approving and spending by allowance: every balance and allowance of the token afterwards, and nothing else changes. |
| `Erc20Wrapper.TransferFromCovers` | src/contract/erc20.cpp:154-160 | Spending an allowance never touches the wrapper. |
| `Erc20Wrapper.Wrapper.DepositTokens` | src/contract/erc20wrapper.cpp:85-88 | Pull and record, or neither. |
| `Erc20Wrapper.Wrapper.Release` | src/contract/erc20wrapper.cpp:65-83 | Lower the record and send, or neither. |
| `Erc20.MoveSum` | src/contract/erc20.cpp:131-134 | Moving conserves the sum and, when the sum fits 256 bits, succeeds if and only if the sender holds enough. |
| `Erc20.MintKeepsSupplied` | src/contract/erc20.cpp:107-110 | Minting keeps the supply equal to the sum of balances. |
| `Erc20.BurnKeepsSupplied` | src/contract/erc20.cpp:112-115 | Burning keeps the supply equal to the sum of balances. |
| `Erc20.MintEffect` | src/contract/erc20.cpp:107-110 | A mint raises one balance and the supply, and changes nothing else. |
| `Erc20.BurnEffect` | src/contract/erc20.cpp:112-115 | A burn lowers one balance and the supply, and changes nothing else. |
| `Erc20.TransferSucceeds` | src/contract/erc20.cpp:131-134 | A transfer of a supplied token succeeds if and only if the balance suffices. |
| `Erc20.TransferEffect` | src/contract/erc20.cpp:131-134 | The sender loses the value, the receiver gains it, nothing else changes. |
| `Erc20.AllowEffect` | src/contract/erc20.cpp:136-152 | One allowance changes, and no balance. |
| `Erc20.TransferFromSucceeds` | src/contract/erc20.cpp:154-160 | Spending an allowance of a supplied token succeeds if and only if allowance and balance suffice. |
| `Erc20.TransferFromEffect` | src/contract/erc20.cpp:154-160 | It lowers that one allowance by the value, takes the value from the owner and gives it to the receiver; nothing else changes. |
| `Erc20.SpentWithinApproval` | src/contract/erc20.cpp:131-160 | In every run without a new approval, what was taken by an allowance and what is left of it add up to what was approved, whatever else happens. |
| `Erc20.ERC20.TransferTo` | src/contract/erc20.cpp:131-134 | Debit and credit, or neither. |
| `Erc20.ERC20.TransferAllowed` | src/contract/erc20.cpp:154-160 | Allowance, debit and credit, or none of them, with the effect that `Erc20.TransferFromEffect` states. |
| `Erc20.ERC20.Approve` | src/contract/erc20.cpp:136-138 | Sets one allowance. |
| `Erc20.ERC20.constructor` | src/contract/erc20.cpp:57-64 | The creator holds the whole supply. |
| `Overlay.CommitEqualsDirect` | src/contract/contractmanager.cpp:289-315 | Committing the overlay after any sequence of successful transfers is applying them to the accounts, with the total conserved. |
| `Overlay.SendSucceeds` | src/contract/contractmanager.cpp:305-315 | Tokens can be sent if and only if sender and receiver both hold the amount and the receiver does not overflow. |
| `Overlay.PoorReceiverIsRefused` | src/contract/contractmanager.cpp:309-311 | An account without funds cannot be paid in the overlay, although the transfer itself would be possible. |
| `Overlay.SendIsDirect` | src/contract/contractmanager.cpp:305-315 | One transfer in the overlay is one transfer on what it stands for. |
| `Overlay.CommitView` | src/core/state.cpp:361-366 | Committing makes the balances what a contract saw, and touches no nonce. |
| `Overlay.ContractManager.PopulateBalance` | src/contract/contractmanager.cpp:289-298 | Brings a balance in unless it is there. |
| `Overlay.ContractManager.SendTokensFrom` | src/contract/contractmanager.cpp:305-315 | The transfer step by step, on both balances. |
| `NativeWrapper.AlwaysBacked` | src/contract/nativewrapper.cpp:118-156 | In every state of every run of wrapper calls, transfers, calls of other contracts and credits, successful or reverted, the wrapper tokens together are at most the wrapper's native balance. |
| `NativeWrapper.OtherKeepsWrapper` | src/core/state.cpp:130-152 | Whatever transactions to other accounts and contracts do, the wrapper keeps at least what it had. |
| `NativeWrapper.CallKeepsBacked` | src/core/state.cpp:130-152 | Every direct transaction to the wrapper keeps the tokens backed, whether its call returns or throws. |
| `NativeWrapper.WithdrawSucceeds` | src/contract/nativewrapper.cpp:153-156 | With the tokens backed, a withdrawal succeeds if and only if the caller holds the tokens and as much native currency already. |
| `NativeWrapper.DepositEffect` | src/contract/nativewrapper.cpp:149-151 | After a deposit the wrapper has the value, the caller as many tokens more, and everyone else what they had. |
| `NativeWrapper.WithdrawEffect` | src/contract/nativewrapper.cpp:153-156 | After a withdrawal the caller has the amount in currency instead of tokens, the wrapper has it less, and everyone else what they had. |
| `NativeWrapper.TokenCallEffect` | src/contract/nativewrapper.cpp:118-147 | The other calls do to the token what the token contract does, and move the value they carry to the wrapper. |
| `NativeWrapper.FailedCallKeepsWrapper` | src/core/state.cpp:142-152 | After a failed call the wrapper holds at least what it held before. |
| `NativeWrapper.WithdrawBacked` | src/contract/nativewrapper.cpp:153-156 | A withdrawal burns as many tokens as the wrapper loses in currency. |
| `NativeWrapper.OtherCallsBacked` | src/contract/nativewrapper.cpp:118-151 | Other calls create at most as many tokens as the currency they carry. |
| `NativeWrapper.Wrapper.CallContract` | src/contract/contractmanager.cpp:146-173 | Commits token and overlay of a payable call, the token alone of another, and nothing of a call that throws; the overlay is empty afterwards. |
| `NativeWrapper.Wrapper.WithdrawValue` | src/contract/nativewrapper.cpp:153-156 | Takes the tokens, then sends the currency. |
| `NativeWrapper.Wrapper.Dispatch` | src/contract/nativewrapper.cpp:118-156 | Every function of the contract step by step, with the specified effect or refusal. |
| `NativeWrapper.Wrapper.DepositValue` | src/contract/nativewrapper.cpp:149-151 | Creates the tokens for the value, unless the balance overflows. |
| `NativeWrapper.Wrapper.MoveTokens` | src/contract/nativewrapper.cpp:118-121 | Debit, then credit. |
| `NativeWrapper.Wrapper.SpendAllowance` | src/contract/nativewrapper.cpp:141-147 | Allowance, debit, credit, with the effect that `Erc20.TransferFromEffect` states. |

## Left out

- P2P, HTTP, gRPC, SnowmanVM, options files, logging, sleeps and thread lifecycle; message delivery is a step that may happen at any time.
- The internals of secp256k1, Keccak, RocksDB and the multiprecision library.
- Forks: the commit-reveal protocol runs over one agreed chain, so a creator that signs two blocks of one height is not modelled.
- Block heights of 2^64 and more, at which the height check of the storage would wrap around, and blocks of 2^32 transactions or more, whose positions do not fit their records.
- `popBack` and `popFront`, which leave the height maps untouched, and the lookups by block and index, whose cache branch reads transactions that may not be cached.
- The map from block hashes to heights, which only those lookups read.
- The periodic save of the storage, which the source leaves empty.
- The check of the chain id a parser is given, which the source does not make.
- The function header check and the functor of the ABI encoder, and the integer types below 256 bits of its decoder.
- Argument lists whose ABI encoding takes 2^31 bytes or more, where the encoder's 32-bit counters overflow.
- Contract dispatch by functor, reflection and JSON ABI; contract methods are calls whose arguments are decoded.
- Persistence of contracts and of accounts, whose nested maps share database keys.
- Calls between contracts other than those of the two wrappers, the DEX contracts, and views.
- `State.State.ProcessNextBlock`: does not say what is left of the accounts after `Crashed`, an exception thrown by the exception handler itself; `Accounts.CrashesExactly` says when there is one, `Processing.BlockConserves` when there is none.
- `Mempool.AlwaysPayable`: runs end where a block crashes the node in that way.
