# The Sovereign Network: a verified model

A Dafny model of the decision-making parts of the chain node and its client, with proofs of what they keep
over every input and every run. Check it with `dafny verify dfyconfig.toml`.

| module | models |
|---|---|
| `Mnemonic` | the BIP-39 codec of the client: 264 bits regrouped between bytes and eleven-bit word numbers |
| `Merkle` | the transaction Merkle root built level by level, and the light client's proof check |
| `LightClient`, `LightClientRuns`, `Sync` | the edge node: rolling header window, tracked outputs, rollback, sync planner |
| `Snapshot`, `SnapshotRoundTrip`, `SnapshotHash`, `KeySort`, `Sorting` | snapshot and restore of the key-value trees, and the state hash |
| `Mempool` | admission, eviction and greedy block selection |
| `Ledger`, `LedgerRuns`, `LedgerSets` | commit without an executor, finality, reorganisation, merge, integrity check |
| `Fees`, `Ubi` | fee deduction and the daily basic income |
| `Migration` | the in-place rewrite of stored block headers |
| `Difficulty` | difficulty adjustment, in both versions the repository has |
| `Evidence` | the Byzantine evidence recorder |
| `UtxoTree`, `UtxoStore`, `UtxoReplay` | the sparse Merkle tree of unspent outputs in the persistent store, and applying a block again after a commit that failed midway |
| `Common`, `Sums`, `Blocks` | shared vocabulary |

Code that updates fields or buffers in loops is modelled by classes and methods, each proved against a
function on values. What the code promises over runs is then proved about those functions.

**Parameters.** Blake3, SHA-256 and the pair hash of the output tree are arbitrary functions. Nothing is
assumed about them: where uniqueness would need a collision-free hash, the lemma returns the colliding
inputs. The BIP-39 word list is any list of 2048 distinct lower-case words; white space, lower-casing, the
block serializer, transaction validity, the signers' primary wallets and the result of processing after a block is
appended are parameters too. Hash maps are visited in any order, and sorting may order ties in any way the stated
properties allow.

**Where code and comments disagree the model follows the code.**

- `lib-blockchain/src/blockchain.rs:1763-1765` says fees are credited to no one at first; the code credits the
  treasury at once, and `Fees.FeesConserveSupply` states what that conserves.
- `lib-blockchain/src/edge_node_state.rs:502-503` says a rollback removes outputs; the code keeps them, so it undoes
  the blocks since exactly under the condition of `LightClientRuns.RollbackUndoes`
  (`LightClientRuns.PaymentSurvivesRollback` is a case where it does not).
- `lib-blockchain/src/edge_node_state.rs:239` calls it verification of a payment by a Merkle proof; the check
  keeps the running hash on the left and so confirms first transactions only, or what hashes up to one
  (`Merkle.OnlyFirstTransactionProvable`).
- `lib-network/src/blockchain_sync/edge_node_strategy.rs:75-91` rolls back to handle a reorganisation; the
  rollback never drops a header there (`Sync.ForkIsNeverFollowed`).
- `lib-blockchain/src/difficulty.rs:71` says the difficulty can at most quadruple or quarter; that is so exactly
  under the conditions of `Difficulty.GrowthWithinFactor` and `Difficulty.ShrinkWithinFactor`, which the default
  configuration meets and those of `Difficulty.GrowthExceedsFactor` and `Difficulty.ShrinkExceedsFactor` do not.
- `lib-blockchain/src/blockchain.rs:5952-5959` describes a replacement of blocks; the height counter and both
  sets keep what the dropped blocks added (`LedgerRuns.ReorgAhead`, `LedgerSets.ReorgSets`).
- `lib-blockchain/src/storage/sled_store.rs:1543-1547` says replaying a block overwrites what a commit that failed
  midway left; that is so exactly under the condition of `UtxoReplay.ReplayRestores`, and fails for the blocks of
  `UtxoReplay.PutNotReplayed` and `UtxoReplay.DeleteNotReplayed`.
- The header's timestamp check (`lib-blockchain/src/block/core.rs:560-564`) only asks for a positive value.

## Model

| member | source | states |
|---|---|---|
| `Mnemonic.RecoverFromSeedPhrase` | lib-client/src/identity.rs:337-436 | Writing the seed phrase of any 32 bytes of entropy down and typing it back in returns exactly that entropy: encoding, joining with blanks, splitting on white space, lower-casing, looking up and regrouping are inverse together |
| `Mnemonic.ReencodePhrase` | lib-client/src/identity.rs:341-436 | Succeeds for exactly the phrases that are the phrase of some 32-byte entropy, and then gives back their own words in lower case |
| `Mnemonic.EntropyFromMnemonic` | lib-client/src/identity.rs:341-392 | A phrase is accepted exactly when its words are the phrase of some 32-byte entropy, and then that entropy is returned; the word-count and unknown-word errors are given exactly when they apply, and the only other error is the checksum |
| `Mnemonic.MnemonicFromEntropy` | lib-client/src/identity.rs:394-436 | Succeeds exactly on 32 bytes, and then gives the 24 words numbered by the eleven-bit groups of entropy and checksum |
| `Mnemonic.Regroup11To8Inverse` | lib-client/src/identity.rs:366-429 | Regrouping 33 bytes into 24 eleven-bit numbers and back is the identity |
| `Mnemonic.Regroup8To11Inverse` | lib-client/src/identity.rs:366-429 | Regrouping 24 eleven-bit numbers into 33 bytes and back is the identity |
| `Mnemonic.IndicesBounded` | lib-client/src/identity.rs:411-432 | Every word number is below 2048, so the word list is never indexed out of range |
| `Mnemonic.IndexBits` | lib-client/src/identity.rs:411-432 | Bit t of word number i is bit 11 i + t of the entropy followed by the first byte of its digest, most significant bits first |
| `Mnemonic.ReadIndex` | lib-client/src/identity.rs:411-429 | The inner encoding loop over single bits computes the value of its eleven-bit group, crossing byte boundaries and the end of the entropy into the checksum |
| `Mnemonic.EntropyFromWords` | lib-client/src/identity.rs:354-391 | Over the word list: accepted exactly when the words spell some entropy with its checksum |
| `Mnemonic.LookUpWords` | lib-client/src/identity.rs:354-364 | Fails exactly when some word is not in the list; otherwise the bits are those of the words' numbers |
| `Mnemonic.Position` | lib-client/src/identity.rs:355-359 | Finds the first occurrence, and fails exactly when there is none |
| `Mnemonic.AppendIndexBits` | lib-client/src/identity.rs:361-363 | The loop from bit 10 down to bit 0 appends the binary digits of the number |
| `Mnemonic.BitsToBytes` | lib-client/src/identity.rs:370-382 | The byte loop yields the bits regrouped by eight |
| `Mnemonic.DecodeBits` | lib-client/src/identity.rs:366-391 | The checksum comparison accepts exactly the bits that are an entropy followed by its checksum |
| `Mnemonic.PhraseOf` | lib-client/src/identity.rs:341-436 | Words are the phrase of an entropy exactly when their regrouped numbers are that entropy and its checksum byte |
| `Mnemonic.SplitJoin` | lib-client/src/identity.rs:338-346 | Splitting words joined by blanks on white space gives the words back |
| `Mnemonic.SplitSpaced` | lib-client/src/identity.rs:342-346 | Any white space around and between words gives the same words |
| `Mnemonic.SplitWords` | lib-client/src/identity.rs:342-346 | Splitting yields only non-empty words without white space |
| `Mnemonic.JoinIsSpaced` | lib-client/src/identity.rs:337-339 | Words are joined by single blanks, with nothing before or after |
| `Merkle.ComputeMerkleRoot` | lib-blockchain/src/edge_node_state.rs:427-453 | The level-by-level loop ends and computes the top node of the recursively defined tree in which the last node of an odd level is paired with itself; zero for no transactions |
| `Merkle.BuildLevel` | lib-blockchain/src/edge_node_state.rs:438-447 | One pass in chunks of two yields the parents of the level, the last one paired with itself if it has no partner |
| `Merkle.LevelAtNode` | lib-blockchain/src/edge_node_state.rs:427-453 | Every node of every level of the loop is the node the recursive tree has there |
| `Merkle.RootIsTopNode` | lib-blockchain/src/edge_node_state.rs:427-453 | The root is the recursive tree's only node at its depth |
| `Blocks.RootInBlockOrder` | lib-blockchain/src/edge_node_state.rs:427-453 | The root of a block is the top of the recursive tree over its transactions' hashes, in block order |
| `Merkle.SmallTrees` | lib-blockchain/src/edge_node_state.rs:427-453 | The trees of one, two and three hashes written out: left before right, the last of an odd level with itself |
| `Merkle.RootBindsLeaves` | lib-blockchain/src/edge_node_state.rs:427-453 | Two different transaction-hash lists of equal length with equal roots yield an explicit Blake3 collision among the strings the builder hashed for them |
| `Merkle.DuplicatedTailSameRoot` | lib-blockchain/src/edge_node_state.rs:438-440 | The equal length is needed: repeating the last hash of any odd list of more than one keeps the root |
| `Merkle.VerifyMerkleProof` | lib-blockchain/src/edge_node_state.rs:284-301 | Accepts exactly when folding the siblings on the right of the running hash gives the expected root |
| `Merkle.FirstPathVerifies` | lib-blockchain/src/edge_node_state.rs:284-301 | From the first node of any level, the first leaf's remaining siblings fold to the root |
| `Merkle.FoldBinds` | lib-blockchain/src/edge_node_state.rs:284-309 | Two folds of equal length with one result are the same start and siblings, or yield a collision |
| `Merkle.AcceptedProofs` | lib-blockchain/src/edge_node_state.rs:284-309 | For proofs of every length: one that follows the first leaf's path is accepted (from that level's first node, or by hashing up to the first transaction if it is longer than the tree is deep), and any other accepted proof yields a collision |
| `Merkle.OnlyFirstTransactionProvable` | lib-blockchain/src/edge_node_state.rs:284-309 | An accepted proof at least as long as the tree is deep hashes up to the first transaction, or yields a Blake3 collision; at full depth it is for the first transaction itself |
| `Merkle.SecondOfTwo` | lib-blockchain/src/edge_node_state.rs:292-294 | The honest proof for the second of two transactions is accepted exactly when Blake3 maps both orders of the pair to one digest |
| `LightClient.Validate` | lib-blockchain/src/edge_node_state.rs:163-222 | A header is accepted exactly when it is well formed and extends the window's newest header |
| `LightClient.EdgeNode.AddHeader` | lib-blockchain/src/edge_node_state.rs:133-160 | Accepts exactly a sound header that extends the newest one, appends it, keeps the newest headers up to the limit and raises the current height; a refused header changes nothing and its reason is returned |
| `LightClient.TrimFront` | lib-blockchain/src/edge_node_state.rs:145-151 | Popping from the front leaves exactly the newest headers, as many as the limit |
| `LightClient.EdgeNode.ProcessBlock` | lib-blockchain/src/edge_node_state.rs:384-424 | Succeeds exactly when the header is accepted and the top of the recursive Merkle tree over the transactions' hashes in block order is its root; adds the header first, and scans the transactions only then; a root mismatch keeps the header and leaves the outputs alone |
| `LightClient.EdgeNode.ScanBlock` | lib-blockchain/src/edge_node_state.rs:404-416 | Scans the transactions of a block in order |
| `LightClient.EdgeNode.ScanTransaction` | lib-blockchain/src/edge_node_state.rs:404-416 | Outputs to own addresses are tracked, then inputs are removed, in order |
| `LightClient.EdgeNode.AddUtxo` | lib-blockchain/src/edge_node_state.rs:93-111 | Tracks an output exactly if it pays an own address |
| `LightClient.EdgeNode.RemoveUtxo` | lib-blockchain/src/edge_node_state.rs:114-129 | Forgets the key and reports whether it was tracked |
| `LightClient.EdgeNode.RollbackToHeight` | lib-blockchain/src/edge_node_state.rs:504-537 | Drops the headers above the target and sets the height; refuses a future height; keeps the tracked outputs |
| `LightClient.EdgeNode.VerifyPayment` | lib-blockchain/src/edge_node_state.rs:241-281 | Confirms a payment exactly when it pays an own address, the header is in the window and the fold gives its root |
| `LightClient.EdgeNode.GetHeaderByHeight` | lib-blockchain/src/edge_node_state.rs:225-227 | Finds the first header of the height |
| `LightClient.EdgeNode.AddAddress` | lib-blockchain/src/edge_node_state.rs:75-81 | Adds an address once |
| `LightClientRuns.RunKeepsWindow` | lib-blockchain/src/edge_node_state.rs:133-237 | Over every run of add_header, process_block and rollback: headers valid, heights consecutive, previous-hash linked, timestamps increasing, length within the limit, tip at most the current height |
| `LightClientRuns.StepKeepsWindow` | lib-blockchain/src/edge_node_state.rs:133-222 | The same for one operation on any state |
| `LightClientRuns.LookupByHeight` | lib-blockchain/src/edge_node_state.rs:225-227 | Lookup by height succeeds exactly between the window's ends and finds the only header of that height |
| `LightClientRuns.StepSynced` | lib-blockchain/src/edge_node_state.rs:133-160 | An operation keeps the tip at the current height exactly when it does not start an emptied window anew below that height |
| `LightClientRuns.RunSynced` | lib-blockchain/src/edge_node_state.rs:133-160 | Over every run without such a restart the tip is the current height |
| `LightClientRuns.TipIsCurrentHeight` | lib-blockchain/src/edge_node_state.rs:133-160 | Over every run from a new client in which no rollback goes below the oldest header, the newest header is at the current height |
| `LightClientRuns.EmptiedByRollback` | lib-blockchain/src/edge_node_state.rs:504-526 | Only a rollback below the window's front can empty it |
| `LightClientRuns.RunTracksLastEvent` | lib-blockchain/src/edge_node_state.rs:384-424 | Over every run, a key is tracked exactly when the last event on it, in chain order over the blocks processed to the end, is a creation, and with that output |
| `LightClientRuns.TrackedIsLastCreation` | lib-blockchain/src/edge_node_state.rs:93-129 | The reference in quantified form: tracked with an output exactly if some event is the last on the key and creates it |
| `LightClientRuns.ScanTracked` | lib-blockchain/src/edge_node_state.rs:404-416 | Scanning one block applies exactly its events |
| `LightClientRuns.ReceiveAt` | lib-blockchain/src/edge_node_state.rs:404-410 | An output to an own address is tracked under its transaction and its own position, and no other output is |
| `LightClientRuns.RunTracksOnlyMine` | lib-blockchain/src/edge_node_state.rs:93-96 | Over every run every tracked output pays an own address |
| `LightClientRuns.RollbackUndoes` | lib-blockchain/src/edge_node_state.rs:502-537 | After any run and a rollback the outputs are those from before the run exactly when the last event on each key, over the blocks processed since, leaves what was there before |
| `LightClientRuns.PaymentSurvivesRollback` | lib-blockchain/src/edge_node_state.rs:502-537 | A new client paid in a block at height 1 that rolls back to height 0 has no header left but still tracks the output |
| `Sync.RoundFromTip` | lib-blockchain/src/edge_node_state.rs:347-380 | With honest headers, one round from a tip reaches the network height exactly when it is at most 500 behind; further behind, the round changes nothing |
| `Sync.FreshReachesNetwork` | lib-blockchain/src/edge_node_state.rs:347-380 | A new client with room for a header reaches every network height from 1 on in two rounds, the first ending one below it |
| `Sync.FreshStaysEmptyAtGenesis` | lib-blockchain/src/edge_node_state.rs:350-354 | At network height 0 the plan is empty |
| `Sync.FeedReaches` | lib-blockchain/src/edge_node_state.rs:133-222 | Feeding consecutive honest headers from the tip on ends at the last of them |
| `Sync.NeedsProofIffPlanned` | lib-blockchain/src/edge_node_state.rs:330-380 | needs_bootstrap_proof holds exactly when the plan is a bootstrap proof |
| `Sync.PlanCovers` | lib-blockchain/src/edge_node_state.rs:347-380 | From a tip the plan ends exactly at the network's height, on a first sync one below it; a bootstrap fetches the hundred headers up to there, starting where its proof ends |
| `Sync.HonestOneMore` | lib-blockchain/src/edge_node_state.rs:163-222 | An honest chain is extended exactly by sound headers that link to its tip |
| `Sync.ForkIsContinuityError` | lib-blockchain/src/edge_node_state.rs:484-500 | For a header sound in itself detect_reorg holds exactly when validation refuses it for its previous hash |
| `Sync.ForkIsNeverFollowed` | lib-network/src/blockchain_sync/edge_node_strategy.rs:51-105 | For a header that detect_reorg reports, the rollback drops nothing and the header is refused, so a client never changes to a fork |
| `SnapshotRoundTrip.Transfer` | lib-blockchain/src/snapshot.rs:294-400 | Taking a snapshot of a well-formed store and restoring it into any other, whatever that held, succeeds and makes all six trees and the height equal to the source's |
| `SnapshotRoundTrip.RestoreRebuildsStore` | lib-blockchain/src/snapshot.rs:294-400 | The same for the snapshot as a value and every order in which the trees are read |
| `SnapshotRoundTrip.SnapshotSucceedsExactly` | lib-blockchain/src/snapshot.rs:294-418 | A snapshot can be taken exactly of a store that records its height in eight bytes, has a readable block there and none below that cannot be read |
| `SnapshotRoundTrip.SameStateSameHash` | lib-blockchain/src/snapshot.rs:211-259 | The same state gives the same state hash whenever and in whatever order it is read |
| `SnapshotRoundTrip.BlockTreesRebuilt` | lib-blockchain/src/snapshot.rs:406-561 | Restoring the blocks of a complete chain rebuilds both block trees exactly |
| `SnapshotRoundTrip.EntryTreesRebuilt` | lib-blockchain/src/snapshot.rs:420-663 | Restoring the collected entries rebuilds the output, balance, account and identity trees exactly |
| `SnapshotRoundTrip.SameCollection` | lib-blockchain/src/snapshot.rs:420-498 | Two visits of a tree collect the same entries, each once and with a sort key of its own |
| `SnapshotHash.PreimageCovers` | lib-blockchain/src/snapshot.rs:211-259 | Two snapshots with the same number of entries and data lengths and the same preimage have the same height, block hash, blocks, outputs, balances, accounts and identities: the state hash covers them all |
| `SnapshotHash.ShapeMatters` | lib-blockchain/src/snapshot.rs:241-256 | Without lengths in the preimage the shape is needed: an only account and an only identity with equal bytes hash alike |
| `SnapshotHash.FlatCovers` | lib-blockchain/src/snapshot.rs:211-259 | A list of entries is determined by its concatenated encoding and the entries' lengths |
| `Snapshot.PreimageCanonical` | lib-blockchain/src/snapshot.rs:211-259 | Permuting outputs, balances, accounts or identities with unique keys never changes the preimage |
| `Snapshot.SledStore.TakeSnapshot` | lib-blockchain/src/snapshot.rs:294-329 | Reads height, tip, blocks and trees, with the error of the first step that fails; the hash is taken over all of it |
| `Snapshot.SledStore.Restore` | lib-blockchain/src/snapshot.rs:356-400 | A rejected version or hash leaves the store untouched; otherwise the trees are exactly what the snapshot holds, and a block that does not decode stops the restore after the blocks before it |
| `Snapshot.SledStore.ClearAllTrees` | lib-blockchain/src/snapshot.rs:500-536 | Empties every tree |
| `Snapshot.SledStore.RestoreBlocks` | lib-blockchain/src/snapshot.rs:538-561 | Fills both block trees up to the first block that does not decode |
| `Snapshot.ComputeStateHash` | lib-blockchain/src/snapshot.rs:211-259 | The hash is taken over height, tip hash, the blocks, and the outputs, balances, accounts and identities each sorted by key, in this order |
| `Snapshot.LatestHeightKey` | lib-blockchain/src/storage/keys.rs:230 | The height is kept under the ASCII bytes of the documented key |
| `Snapshot.Collect` | lib-blockchain/src/snapshot.rs:420-498 | Visits every key once and skips exactly those too short for the format |
| `Snapshot.CollectBlocks` | lib-blockchain/src/snapshot.rs:406-418 | Collects the blocks up to the height, or the first read error |
| `Snapshot.InsertAll` | lib-blockchain/src/snapshot.rs:563-610 | Inserts every entry in turn |
| `Snapshot.TreeRoundTrip` | lib-blockchain/src/snapshot.rs:420-663 | Collecting a tree of exact formats in any order and inserting into an empty one rebuilds it |
| `Snapshot.UtxosFaithful` | lib-blockchain/src/snapshot.rs:420-442 | Output keys of 36 bytes survive the split into hash and big-endian index and back |
| `Snapshot.BalancesFaithful` | lib-blockchain/src/snapshot.rs:444-476 | Balance keys of 64 bytes and values of 16 survive the split and the 128-bit integer and back |
| `Common.FromBEFirst` | lib-blockchain/src/snapshot.rs:420-476 | Big-endian decoding: the first byte is the most significant |
| `Common.FromLELast` | tools/sled_migration.rs:89-108 | Little-endian decoding: the last byte is the most significant |
| `KeySort.SortCanonical` | lib-blockchain/src/snapshot.rs:224-256 | Two lists with unique keys and the same elements sort to the same list |
| `Sorting.SortPermutes` | lib-blockchain/src/snapshot.rs:224-256 | Sorting by any order keeps every element as often as it occurs |
| `KeySort.SortAscending` | lib-blockchain/src/snapshot.rs:224-256 | A list with unique keys is sorted strictly by byte order |
| `KeySort.AscendingUnique` | lib-blockchain/src/snapshot.rs:224-256 | Two strictly ascending lists with the same elements are equal |
| `Mempool.Pool.GetTransactionsForBlock` | lib-blockchain/src/mempool.rs:85-118 | In order of fee rate, within both limits, no transaction twice, all from the pool; each one left out is justified: the count limit is reached by transactions of at least its rate, or those of at least its rate leave no room for it |
| `Mempool.SelectFrom` | lib-blockchain/src/mempool.rs:102-115 | The same for the loop over any order sorted by rate, however ties fall |
| `Mempool.SortByRateSorted` | lib-blockchain/src/mempool.rs:94-100 | The sort puts no better rate at a later position |
| `Mempool.RateIsFeePerByte` | lib-blockchain/src/mempool.rs:94-100 | The comparison is that of fee per byte as exact ratios |
| `Mempool.TotalSizeAppend` | lib-blockchain/src/mempool.rs:102-115 | The running size is additive over the selected transactions |
| `Mempool.Pool.AddTransaction` | lib-blockchain/src/mempool.rs:35-62 | The exact error for each refusal, those of the validator included, with the pool unchanged; otherwise the cheapest part of the pool, just large enough, makes room, whatever the newcomer pays, and the newcomer is queued after what is left in its order |
| `Mempool.Pool.MakeRoom` | lib-blockchain/src/mempool.rs:53-55 | Evicts the cheapest transactions, as few as needed; a pool of size zero ends empty with an error |
| `Mempool.Pool.EvictLowest` | lib-blockchain/src/mempool.rs:196-219 | Removes one transaction that pays no more than any other |
| `Mempool.Pool.RemoveTransaction` | lib-blockchain/src/mempool.rs:65-72 | Removes the transaction from map and queue and returns it |
| `LedgerRuns.RunKeepsFinalized` | lib-blockchain/src/blockchain.rs:5770-6042 | Under any interleaving of commits, finalizations, reorganisations (also those failing midway) and merges, a finalized height stays finalized and the block found there never changes |
| `LedgerRuns.StepKeeps` | lib-blockchain/src/blockchain.rs:4478-4546 | The same for one operation on any state whose finalized heights have blocks |
| `LedgerRuns.ReorgKeeps` | lib-blockchain/src/blockchain.rs:5922-6042 | The same for a reorganisation, whatever happens to its blocks |
| `LedgerRuns.CommitsStayConsistent` | lib-blockchain/src/blockchain.rs:1127-1168 | On every run of commits from a consistent ledger, the output and nullifier sets equal those rebuilt from all blocks, the integrity check passes, the chain only grows, and no committed block spends a nullifier of an earlier block |
| `LedgerRuns.GenesisConsistent` | lib-blockchain/src/blockchain/init.rs:113-120 | A new ledger is consistent, so the above holds from the start |
| `LedgerSets.UtxosAreCreated` | lib-blockchain/src/blockchain.rs:4156-4173 | Every entry of the output set is an output some block created, under the id of its transaction and position |
| `LedgerSets.CreatedAreUtxos` | lib-blockchain/src/blockchain.rs:1736-1751 | Under the id of every output of every block the set holds that output, or a later one with the same id: none is lost and none is ever removed |
| `LedgerSets.NullifiersAreSpent` | lib-blockchain/src/blockchain.rs:1738-1741 | The nullifier set is exactly the nullifiers of all inputs of all blocks |
| `LedgerSets.ReorgSets` | lib-blockchain/src/blockchain.rs:6010-6031 | After a reorganisation of a consistent ledger both sets contain what they did; the outputs are still those rebuilt from the blocks exactly when every dropped output is overridden by an added one or also a kept one, the nullifiers exactly when the kept blocks spent every nullifier the dropped ones did, and the integrity check passes exactly when the dropped ids and nullifiers are all among the others' |
| `LedgerSets.ReorgGrows` | lib-blockchain/src/blockchain.rs:6010-6031 | The blocks become the kept ones and the new ones that could be added (all on success), still linked; the sets grow by the added blocks' and lose nothing |
| `LedgerSets.ReorgWitness` | lib-blockchain/src/blockchain.rs:6010-6031 | A ledger of genesis and one block with any given transaction, reorganised to an empty block: the integrity check passes exactly when that transaction had neither inputs nor outputs |
| `LedgerSets.ReorgDoubleSpends` | lib-blockchain/src/blockchain.rs:6010-6031 | After an allowed reorganisation of any ledger, a block that spends nothing of the chain is never refused exactly when the kept blocks spent all that is in the set; and if the set held all nullifiers of the chain, no admissible block spends one of them |
| `LedgerSets.RunNeverRespends` | lib-blockchain/src/blockchain.rs:5922-6042 | Over every run of commits, finalizations and any number of reorganisations, also those failing midway, and imports only if safe themselves: no admissible block spends a nullifier of the chain, and no two blocks of the chain spent the same one |
| `LedgerSets.StepSafe` | lib-blockchain/src/blockchain.rs:1136-1145 | Every such step keeps the set holding all nullifiers of the chain, and the blocks spending apart |
| `LedgerSets.GenesisSafe` | lib-blockchain/src/blockchain/init.rs:113-120 | A new ledger is in such a state |
| `LedgerSets.DoubleSpendCheckExact` | lib-blockchain/src/blockchain.rs:1136-1145 | In any state the double-spend check is sound exactly when the set holds all nullifiers of the chain, and complete exactly when it holds no others |
| `LedgerSets.MergeSets` | lib-blockchain/src/blockchain.rs:4496-4507 | After an adopted import the ledger is consistent exactly when the import is and its nullifiers are those the ledger had; nothing of it can be spent again exactly when the ledger had them all |
| `LedgerSets.SpentOnce` | lib-blockchain/src/blockchain.rs:1136-1145 | On every such run the whole chain spends no nullifier twice exactly when no block of it repeats one within itself |
| `LedgerSets.RepeatAdmitted` | lib-blockchain/src/blockchain.rs:1136-1145 | A block that repeats an unspent nullifier within itself is admitted |
| `LedgerSets.SetsAppend` | lib-blockchain/src/blockchain.rs:4156-4173 | The sets of two chains in a row are those of the first overridden or joined by those of the second |
| `LedgerSets.AddAllGrows` | lib-blockchain/src/blockchain.rs:6017-6032 | Adding blocks commits a prefix of them, all if none fails, and grows blocks and sets by exactly those |
| `LedgerRuns.RunConservesSupply` | lib-blockchain/src/blockchain.rs:1147-1156 | Over every run of commits, refusals, finalizations and reorganisations with a treasury, 64-bit block fees and a 128-bit supply, charging the fees neither creates nor destroys SOV |
| `LedgerRuns.ReorgAhead` | lib-blockchain/src/blockchain.rs:6010-6031 | A reorganisation leaves the height counter ahead of the tip by exactly the number of blocks dropped |
| `LedgerRuns.ReorgDropsFew` | lib-blockchain/src/blockchain.rs:5922-5944 | An allowed reorganisation drops at most one block more than the configured depth, less what the counter is ahead |
| `LedgerRuns.KeepBelowAppend` | lib-blockchain/src/blockchain.rs:6010-6013 | Dropping from a height on keeps the order and works block by block |
| `LedgerRuns.KeepBelowOne` | lib-blockchain/src/blockchain.rs:6010-6013 | A single block stays exactly below the target |
| `LedgerRuns.AddAllStopsAtFirstError` | lib-blockchain/src/blockchain.rs:6016-6031 | New blocks are committed in turn up to and including the first that reports an error, and what was done until then stays |
| `LedgerRuns.FinalizedDepth` | lib-blockchain/src/blockchain.rs:5770-5781 | A height is finalized next exactly when it has a block with the finality depth above it by the counter |
| `LedgerRuns.FinalizationCounts` | lib-blockchain/src/blockchain.rs:5795-5869 | The number reported is the number of heights the finalization adds, when no two blocks share one |
| `LedgerRuns.CommitsFinalizeDeeply` | lib-blockchain/src/blockchain.rs:5770-5869 | Over every run of commits and finalizations a finalized height has the full finality depth of blocks above it |
| `Ledger.Blockchain.constructor` | lib-blockchain/src/blockchain/init.rs:113-120 | Starts at the genesis block with its outputs and nullifiers |
| `Ledger.Blockchain.ProcessAndCommitBlock` | lib-blockchain/src/blockchain.rs:1120-1169 | Appends exactly a verified block none of whose inputs spends a known nullifier; then the fees are charged, the height counter raised and both sets extended, also when later processing fails; a refused block changes nothing |
| `Ledger.Blockchain.VerifyBlock` | lib-blockchain/src/blockchain.rs:1649-1690 | Accepts exactly a block that extends the last one in height and hash, whose transactions are all accepted and whose header holds the top of the recursive Merkle tree over their hashes in block order |
| `Ledger.Blockchain.DoubleSpends` | lib-blockchain/src/blockchain.rs:1136-1145 | Found exactly when some nullifier of the block was spent by an earlier block |
| `Ledger.SpendsOf` | lib-blockchain/src/blockchain.rs:1136-1145 | A block is disjoint from a set of nullifiers exactly when no input of any of its transactions is in it |
| `Ledger.Blockchain.UpdateUtxoSet` | lib-blockchain/src/blockchain.rs:1736-1751 | Adds the block's nullifiers and outputs |
| `Ledger.Blockchain.FinalizeBlocks` | lib-blockchain/src/blockchain.rs:5795-5869 | Finalizes exactly the heights deep enough below the counter, and counts the blocks not finalized before |
| `Ledger.Blockchain.ReorgToFork` | lib-blockchain/src/blockchain.rs:5960-6042 | Allowed exactly when all finalized heights are below the target, the counter is within the depth of it and the new blocks start there and are linked; refused without change, or blocks from the target on are dropped and the new ones added up to the first that fails; succeeds exactly when allowed and every new block is added, with the number of removed blocks |
| `Ledger.Blockchain.EvaluateAndMergeChain` | lib-blockchain/src/blockchain.rs:4478-4608 | An import is adopted exactly by a chain without finalized blocks that is empty or at height 0, if it has blocks; the verdict is refusal with finalized blocks, an unreadable import or one that does not verify, and otherwise to keep the local chain |
| `LedgerRuns.MergeKeepsGrownChain` | lib-blockchain/src/blockchain.rs:4482-4546 | A chain with blocks beyond height 0, or with finalized ones, is never replaced by an import |
| `LedgerRuns.MergeAdoptsExactly` | lib-blockchain/src/blockchain.rs:4478-4608 | When exactly an import is adopted, refused or passed over, and which parts of the state it replaces |
| `Ledger.Blockchain.VerifyAll` | lib-blockchain/src/blockchain.rs:4548-4567 | A chain verifies exactly when each block does against the one before it |
| `Ledger.Blockchain.VerifyIntegrity` | lib-blockchain/src/blockchain.rs:4137-4195 | True exactly when each block follows the one before it in height and hash and both rebuilt sets have the sizes of the kept ones |
| `Ledger.Rebuild` | lib-blockchain/src/blockchain.rs:4156-4173 | The rebuilding loop computes the two reference sets |
| `Fees.FeesConserveSupply` | lib-blockchain/src/blockchain.rs:1779-1903 | The sum of balances is unchanged exactly when the fees fit 64 bits and the treasury has room for them; without a well-formed treasury it drops by exactly the fees taken; also when the treasury itself pays |
| `Fees.DeductConserves` | lib-blockchain/src/blockchain.rs:1779-1903 | For every block, with a supply within 128 bits, fees within 64 and a well-formed treasury, the supply is unchanged |
| `Fees.AllFeesPaid` | lib-blockchain/src/blockchain.rs:1820-1860 | All fees of a block are taken exactly when every account holds, at the start, the sum of the fees due from it; the order does not matter |
| `Fees.DueIsBlockFees` | lib-blockchain/src/blockchain.rs:1786-1805 | What is due is the sum of the fees of the non-system transactions, whoever pays them |
| `Fees.DueFromPayer` | lib-blockchain/src/blockchain.rs:1786-1805 | What is due from an account is the sum of the fees of the non-system transactions it pays for, by wallet or as signer |
| `Fees.PaymentsInOrder` | lib-blockchain/src/blockchain.rs:1786-1805 | Payments come in block order |
| `Fees.ChargedAccount` | lib-blockchain/src/blockchain.rs:1820-1860 | Every account is down by exactly the fees taken from it |
| `Fees.DeductedAccount` | lib-blockchain/src/blockchain.rs:1779-1903 | Every account is down by what was taken from it, and a well-formed treasury up by the saturating total of all, also when it pays itself |
| `Fees.ChargedSupply` | lib-blockchain/src/blockchain.rs:1820-1860 | The supply is down by exactly the fees taken |
| `Fees.SovToken.DeductTransactionFees` | lib-blockchain/src/blockchain.rs:1779-1903 | Nothing without a token contract; otherwise payers who can are charged in order, and the saturating total is credited to a well-formed treasury and returned |
| `Fees.SovToken.ChargeAll` | lib-blockchain/src/blockchain.rs:1820-1860 | The deduction loop charges in order and passes over a payer who cannot cover a fee |
| `Fees.FeePayers` | lib-blockchain/src/blockchain.rs:1786-1805 | From every account exactly the fees of the non-system transactions it pays for are due: those of the signers whose primary wallet it is, and its own where it signs without one |
| `Ubi.RunExact` | lib-blockchain/src/blockchain.rs:6284-6354 | Over any distributions, thirty times what was received plus the carried remainder is up by exactly the number of payouts times the monthly amount, and the remainder stays below thirty |
| `Ubi.RegisteredExact` | lib-blockchain/src/blockchain.rs:6420-6458 | From registration on: 30 * received + remainder = payouts * monthly + monthly % 30 |
| `Ubi.ThirtyPayoutsMakeAMonth` | lib-blockchain/src/blockchain.rs:6284-6354 | Any thirty consecutive payouts add up to exactly the monthly amount |
| `Ubi.PayoutsADayApart` | lib-blockchain/src/blockchain.rs:6274-6310 | Payouts are at least 8640 blocks apart over every run |
| `Ubi.PaidEveryDay` | lib-blockchain/src/blockchain.rs:6274-6310 | With a distribution at each of n consecutive blocks, payouts fall exactly on every 8640th block from the first, none missed |
| `Ubi.PaidExact` | lib-blockchain/src/blockchain.rs:6284-6354 | One payout moves the books by exactly one monthly amount |
| `Ubi.CreditedTotal` | lib-blockchain/src/blockchain.rs:6284-6354 | When the due citizens' wallets exist, wallet balances grow by exactly the distributed total |
| `Ubi.AppliedIsAfter` | lib-blockchain/src/blockchain.rs:6284-6354 | Collecting updates first and applying them later moves each due citizen on by one payout and no one else, for every visiting order |
| `Ubi.PaidExactlyWhenDue` | lib-blockchain/src/blockchain.rs:6274-6320 | Exactly an active citizen never paid, or not for 8640 blocks, is paid; the block is recorded and nothing else of the entry but total and remainder changes |
| `Ubi.SumIsIncrements` | lib-blockchain/src/blockchain.rs:6284-6354 | For every visiting order the payouts collected for a wallet, or for all, sum to the increments of what its citizens received |
| `Ubi.CreditedAt` | lib-blockchain/src/blockchain.rs:6324-6354 | A wallet is up by the payouts collected for its citizens |
| `Ubi.UbiLedger.ProcessDistribution` | lib-blockchain/src/blockchain.rs:6284-6354 | Every entry becomes its entry after one distribution; the total is the sum of all increments of what citizens received, and every wallet is up by exactly the increments of its own citizens |
| `Ubi.UbiLedger.CollectMintEntries` | lib-blockchain/src/blockchain.rs:6359-6414 | The planner lists exactly the due citizens with an existing well-formed wallet, each once, for the amount a distribution at that block would pay |
| `Ubi.UbiLedger.RegisterForUbi` | lib-blockchain/src/blockchain.rs:6420-6458 | Registers a new citizen with the monthly amount, a thirtieth of it a day and the remainder, unpaid and active; refuses a known one |
| `Migration.OldBlockMigrated` | tools/sled_migration.rs:64-195 | With distinct hashes, an old-format block is rewritten, keeping fields and transactions, exactly when its bytes 76..84 do not read as its height; otherwise it is left as it is |
| `Migration.SecondRunChangesNothing` | tools/sled_migration.rs:64-195 | A second run writes nothing, finds all migrated blocks new and the same errors |
| `Migration.RewritePreservesMeaning` | tools/sled_migration.rs:137-172 | Read in the new layout, the rewritten block has the kept fields and the transaction bytes it had in the old |
| `Migration.RewrittenIsNew` | tools/sled_migration.rs:89-108 | The rewritten block is detected as new |
| `Migration.ClassifyExactly` | tools/sled_migration.rs:76-135 | New, old or error, exactly by the length and the two places a height can stand |
| `Migration.CountersAddUp` | tools/sled_migration.rs:64-195 | The three counters sum to the number of heights |
| `Migration.DryRunWritesNothing` | tools/sled_migration.rs:184-188 | A dry run leaves the store as it is |
| `Migration.ScanResult` | tools/sled_migration.rs:64-195 | With distinct hashes each height is migrated by its own block alone |
| `Migration.Store.MigrateHeight` | tools/sled_migration.rs:68-195 | One height: the outcome of detection, and a write exactly for a block to be rewritten outside a dry run |
| `Migration.Store.Migrate` | tools/sled_migration.rs:50-195 | Scans all heights up to the recorded latest; does nothing without a readable one |
| `Difficulty.AlwaysBounded` | lib-blockchain/src/difficulty.rs:221-257 | For a valid configuration without overflow every adjustment succeeds, without dividing by zero, within [min, max] |
| `Difficulty.DividesByZeroExactly` | lib-blockchain/src/difficulty.rs:221-257 | For a valid configuration the only error on a positive difficulty is a division by zero, exactly when factor times target wraps to zero in 64 bits |
| `Difficulty.ZeroRefused` | lib-blockchain/src/difficulty.rs:221-257 | A difficulty of zero is refused |
| `Difficulty.AntitoneInTimespan` | lib-blockchain/src/difficulty.rs:221-257 | A slower interval never gives a higher difficulty |
| `Difficulty.OnTargetKeepsDifficulty` | lib-blockchain/src/difficulty.rs:221-257 | At the target timespan the result is the current value within the bounds |
| `Difficulty.GrowthWithinFactor` | lib-blockchain/src/difficulty.rs:70-72 | The promise that one adjustment at most multiplies the difficulty by the factor holds of the result for every timespan exactly when max <= current * factor, or min <= current * factor and the fastest quotient does not exceed it; within 64 bits the latter is target < factor or current * (target % factor) < target / factor |
| `Difficulty.ShrinkWithinFactor` | lib-blockchain/src/difficulty.rs:70-72 | The promise that it at most divides by the factor holds of the result, rounded down, for every timespan exactly when the maximum allows it and, unless the minimum forces it, the 64-bit product does not saturate below it |
| `Difficulty.DefaultWithinFactor` | lib-blockchain/src/difficulty.rs:75-87 | The default configuration keeps both promises for every 32-bit difficulty and every timespan |
| `Difficulty.GrowthExceedsFactor` | lib-blockchain/src/difficulty.rs:221-257 | Two valid configurations of factor 4 that multiply by 5 and by 1000 |
| `Difficulty.ShrinkExceedsFactor` | lib-blockchain/src/difficulty.rs:221-257 | Two valid configurations of factor 4 that divide by 8 and by 1024 |
| `Difficulty.FastestIsWorst` | lib-blockchain/src/difficulty.rs:221-257 | No timespan gives more than a limit exactly when an interval of no length does not |
| `Difficulty.SlowestIsWorst` | lib-blockchain/src/difficulty.rs:221-257 | No timespan gives less than a limit exactly when factor times the target does not |
| `Difficulty.VersionsAgree` | lib-blockchain/src/blockchain.rs:2048-2089 | The ledger's own version gives the same value exactly when the quotient fits 32 bits or is cut to the largest 32-bit value |
| `Difficulty.LedgerDifficultyEdges` | lib-blockchain/src/blockchain.rs:2048-2089 | Without a target or with nothing to divide by the difficulty stays; the clamp range is empty exactly for a decrease factor of zero and a target that reaches the other factor |
| `Difficulty.AdjustsOnlyAtIntervalEnds` | lib-blockchain/src/difficulty.rs:275-302 | Adjusts exactly at positive multiples of the interval with a positive timespan, within the bounds |
| `Difficulty.AdjustsByElapsedTime` | lib-blockchain/src/difficulty.rs:275-302 | What is set is the new difficulty for the time between start and end |
| `Difficulty.AdjustOnTarget` | lib-blockchain/src/difficulty.rs:275-302 | An interval that took the target timespan keeps the difficulty within the bounds, whenever it ran |
| `Difficulty.AdjustIgnoresShift` | lib-blockchain/src/difficulty.rs:275-302 | Moving start and end together changes nothing |
| `Difficulty.AdjustAntitone` | lib-blockchain/src/difficulty.rs:275-302 | A longer interval never sets a higher difficulty |
| `Difficulty.ClampedRange` | lib-blockchain/src/difficulty.rs:232-238 | The clamped timespan is positive and within the factor of the target |
| `Difficulty.DifficultyManager.ApplyGovernanceUpdate` | lib-blockchain/src/difficulty.rs:318-343 | All given parameters or none; a valid configuration stays valid, and only zeros are refused |
| `Difficulty.DifficultyManager.SetMinDifficulty` | lib-blockchain/src/difficulty.rs:346-354 | Refused exactly above the maximum; keeps a configuration valid |
| `Difficulty.DifficultyManager.SetMaxDifficulty` | lib-blockchain/src/difficulty.rs:357-365 | Refused exactly below the minimum; keeps a configuration valid |
| `Difficulty.DifficultyManager.SetMaxAdjustmentFactor` | lib-blockchain/src/difficulty.rs:368-376 | Refused exactly for zero; keeps a configuration valid |
| `Evidence.RunConsistent` | lib-blockchain/src/byzantine_evidence.rs:148-264 | Over every run and whatever ids the hash gives: strikes equal the stored items per validator, amounts are ten per strike, and a validator is marked exactly with three strikes and an item not yet slashed |
| `Evidence.SlashReportsAllStrikes` | lib-blockchain/src/byzantine_evidence.rs:246-264 | A slashing reports ten per strike ever recorded, those already slashed included |
| `Evidence.RunKeepsItems` | lib-blockchain/src/byzantine_evidence.rs:148-264 | No run drops or alters an item, except that a slashing marks it for good |
| `Evidence.Recorder.RecordEvidence` | lib-blockchain/src/byzantine_evidence.rs:148-208 | Refuses a known id without change; otherwise stores, counts, adds ten and marks from three strikes on |
| `Evidence.Recorder.ExecuteSlashing` | lib-blockchain/src/byzantine_evidence.rs:246-264 | Refuses an unmarked validator; otherwise unmarks, marks the items slashed and returns the amount |
| `UtxoTree.ProofsAreExact` | lib-blockchain/src/storage/sled_store.rs:789-851 | For every position within capacity the served siblings prove its leaf against the root, and any other leaf or siblings accepted there yield a collision of the pair hash |
| `UtxoTree.UpdatePath` | lib-blockchain/src/storage/sled_store.rs:488-525 | The loop from leaf to root computes the nodes with one path rewritten |
| `UtxoTree.PathKeepsTree` | lib-blockchain/src/storage/sled_store.rs:488-525 | Rewriting one path keeps every node of the sparse tree the hash of its whole subtree for the changed leaf; past capacity the root becomes that of another subtree |
| `UtxoTree.PathVerifies` | lib-proofs/src/transaction/circuit.rs:533-562 | Served siblings folded by the position's bits lead from any node to its ancestor |
| `UtxoTree.UnderRoot` | lib-blockchain/src/storage/sled_store.rs:488-525 | A position is under the root exactly when it is below two to the depth |
| `UtxoTree.TreeOfTwo` | lib-blockchain/src/storage/sled_store.rs:488-525 | The tree of two leaves written out: the even position is hashed on the left, on the path and in the proof |
| `UtxoStore.TreeStore.PutLeaf` | lib-blockchain/src/storage/sled_store.rs:695-728 | In any store: refused exactly without a block in progress or for an output already indexed; otherwise the output gets the next position. A right store gains exactly this leaf and stays right within capacity |
| `UtxoStore.TreeStore.DeleteLeaf` | lib-blockchain/src/storage/sled_store.rs:730-761 | In any store: zeroes the leaf and forgets the position, found among the block's puts or in the committed index. A right store loses exactly this output and stays right |
| `UtxoStore.TreeStore.GetProof` | lib-blockchain/src/storage/sled_store.rs:789-851 | A proof for exactly the committed outputs; in a right store it verifies against the root in view |
| `UtxoStore.TreeStore.BeginBlock` | lib-blockchain/src/storage/sled_store.rs:1482-1517 | In any store: refused while a block is in progress and for any height but the next one, without change; otherwise stages from the committed layer |
| `UtxoStore.TreeStore.CommitBlock` | lib-blockchain/src/storage/sled_store.rs:1519-1653 | When all batches land the staged layer becomes the committed one and the height is recorded; when only some do, exactly those parts are replaced and the height stays |
| `UtxoReplay.ReplayRestores` | lib-blockchain/src/storage/sled_store.rs:1543-1547 | Applying any block again after its commit landed in part restores what the commit would have left exactly when the index had not landed; or nothing the block put is left in the index (once the next position has landed: it put nothing) and either the nodes had landed or no committed output with a nonzero leaf was deleted |
| `UtxoReplay.PutNotReplayed` | lib-blockchain/src/storage/sled_store.rs:695-728 | A block that puts an output into an empty store is refused when applied again after its index landed |
| `UtxoReplay.DeleteNotReplayed` | lib-blockchain/src/storage/sled_store.rs:730-761 | A block that deletes the only output is accepted again after its index but not its nodes landed, changes nothing, and the nodes stay wrong for the leaves |
| `UtxoReplay.EarlyFailure` | lib-blockchain/src/storage/sled_store.rs:1543-1547 | Before the index landed the second application gives exactly the same layer |
| `UtxoReplay.MiddleFailure` | lib-blockchain/src/storage/sled_store.rs:1543-1547 | With the index but not the nodes landed and no put left, it does exactly when only zero leaves were deleted |
| `UtxoReplay.SecondNotes` | lib-blockchain/src/storage/sled_store.rs:695-761 | Over an index none of the operations touches, a block assigns and writes the same positions again except those of committed outputs it deletes |
| `UtxoStore.PutOk` | lib-blockchain/src/storage/sled_store.rs:695-728 | A put within capacity keeps committed and staged layers right and adds exactly this output |
| `UtxoStore.DeleteOk` | lib-blockchain/src/storage/sled_store.rs:730-761 | A delete keeps them right and removes exactly this output |
| `UtxoStore.TreeStore.RollbackBlock` | lib-blockchain/src/storage/sled_store.rs:1655-1666 | The committed layer stays as it was before the block |

## Left out

- The block executor path, consensus coordination, events, broadcast, persistence and everything asynchronous.
- Transaction validation, and the token, oracle, governance, employment and receipt code run after a block is
  appended: only their outcome enters, as a parameter.
- The wall clock and random choices; recorded fork points, reorganisation counts and output snapshots per height.
- Chain-merge branches behind the chain evaluator, which always keeps the local chain.
- Access control, resource and execution limits, scoring in floating point: finite tables or single comparisons.
- Handshakes, sessions, key handling and transaction building in the client.
- Overflow of 64-bit heights, counters and positions and of 128-bit basic-income totals: these are unbounded here;
  fees, balances, difficulties and byte encodings keep their widths.
- Mempool.Pool.AddTransaction: fee rates are exact ratios and sizes positive, because the source divides in
  floating point; what the transaction validator finds is a parameter.
- Mempool.Pool.GetTransactionsForBlock: compares exact ratios instead of floating-point quotients.
- Mempool.SortByRateSorted: one way of breaking ties; the selection is proved for every order sorted by rate.
- Snapshot.SledStore.Restore: input and output errors of the store are not modelled; entries of the meta tree
  other than the height are dropped, as in the source.
- SnapshotRoundTrip.Transfer: assumes a store as the node writes it (exact key and value lengths, complete chain
  whose blocks the serializer reads back).
- LedgerRuns.RunConservesSupply: only what fees do to the balances; token operations run after a block is appended
  are not modelled.
- Ledger.Blockchain.EvaluateAndMergeChain: the other registries an import brings along are not part of the state.
- Sync.RoundFromTip: the answer of an honest peer; the strategy's own error at an unknown network height and the
  zero-knowledge proof of a bootstrap are not modelled.
- UtxoStore.TreeStore.CommitBlock: only the output tree of the store; the depth, 32 in the source, is a parameter.
- Writes to the store outside blocks.
- UtxoReplay.ReplayRestores: for blocks that stay within the capacity of the tree, from a committed layer that is right.
- Migration.Store.Migrate: opening the database and the printed progress are not modelled.
