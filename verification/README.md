# Ironcat: a verified model of the node's consensus core

Ironcat is a Catcoin full node written in Rust. This project models the parts of it that decide what the node
believes: blocks connected to and disconnected from the set of unspent coins, the tree of headers, chain
reorganization, the pool of unconfirmed transactions, the block download window, the difficulty rules, and the
script and merkle algorithms. Each part is stated as functions over values; the objects of the program are classes
whose methods are proved to compute those functions; and the properties the program relies on are lemmas about them.

The modules, bottom up:

- `Basics`, `LittleEndian`, `Types`, `Arith`: shared values, byte integers, blocks and transactions, arithmetic.
- `Compact`, `Pid`, `Difficulty`, `DifficultyTheorems`, `DifficultyResponse`: the compact target form, the six difficulty
  rules, their bounds, and how they answer to the times of the blocks.
- `Merkle`, `Multisig`, `Script`, `ScriptEngine`, `ScriptTheorems`, `EngineClass`, `VerifyInput`,
  `ScriptRules`, `ScriptNumbers`: merkle root, greedy multisig matching, the script walkers, the interpreter,
  pay-to-script-hash, and what scripts decide.
- `UndoCodec`, `Utxo`, `UndoTheorems`, `ChainSpec`, `ChainStateClass`, `Supply`, `Replay`, `SupplyRuns`,
  `BlockRules`: the chain state, its undo records as bytes, conservation of value, states as replays of chains, the
  supply cap, and the rules a chain keeps exactly if it replays.
- `HeaderTree`, `HeaderSpec`, `HeaderBatch`, `HeaderForks`, `HeaderWork`, `HeaderBest`, `HeaderDifficulty`,
  `HeaderStoreClass`: the header tree, its indexes, the work of its headers, and the best of them.
- `MempoolSpec`, `MempoolRules`, `MempoolBlocks`, `MempoolOrder`, `MempoolTemplate`, `MempoolAccept`,
  `MempoolClass`, `MempoolRuns`: the pool, what it accepts, and whole runs of it.
- `ReorgSpec`, `Reorg`: the reorganization coordinator over the three objects above.
- `DownloadSpec`, `DownloadTheorems`, `DownloadRuns`, `DownloadProgress`, `DownloadClass`: the download window.
- `Counterexamples`: inputs for which a promise fails.

## Conventions

- Transaction ids, block hashes and pair hashes are uninterpreted. What a result needs of them (no collisions, no
  repeated ids) is one of its preconditions.
- Script verification, signature checks, proof of work, the difficulty rule inside the header store, peers, send
  results, validation verdicts and the clock are arbitrary functions or parameters.
- Databases and files are maps, and a transaction on them is atomic. Reading an indexed block back may fail.
- Integers are unbounded. 64-bit overflow of sums, 32-bit heights and 256-bit targets are written out where the
  program checks them or could exceed them.

## Where the code does less than its comments say

Each is stated with the exact condition under which the promise holds; the second name, where there is one, is an input
for which it fails.

- Disconnecting a block restores the coins exactly if no output of the block overwrote an unspent coin. The program
  does not check that (`ConnectThenDisconnect`, `RepeatedCoinbaseLosesCoin`). The supply cap does not depend on it.
- `switch_active_chain` keeps the tips childless exactly if the old tip has no stored child
  (`SwitchKeepsShapeIff`, `SwitchFailsReachably`).
- `fill_window` forgets heights exactly when it has collected one and then finds no peer with room
  (`FillCoveredIff`, `HeightLost`).
- CIP01's one-bit shift does not keep its product inside 256 bits for every target (`Cip01AbortsIff`,
  `Cip01AbortExample`).
- The pool does not look at coinbase maturity, so its transactions connect as a block body exactly if they spend no
  young coinbase (`PoolConnects`, `YoungCoinbaseAccepted`).
- A transaction reported as accepted is in the pool if it fits beside what was there, which is exactly when nothing is
  evicted; otherwise it may be evicted by the same call (`AcceptTx`, `AcceptedThenEvicted`).
- A failed reorganization is invisible if every block of both branches can be read; an unreadable block stops it where it
  is, without a rollback (`ActivateBestChain`, `StoppedHalfWay`).
- A tip marked invalid stops being the best exactly if it is not the active tip of the header store, so a rejected
  extension of the chain state is tried again by every call (`MarkInvalid`, `RetriedForever`).
- `accept_header` keeps forks off the checkpoints exactly if the header's height has none or the header is it
  (`AcceptCheckpointedIff`, `CheckpointMissed`).
- CIP04 never returns a target above the limit, but it returns zero, which no hash can meet, exactly if the controller
  takes away as much as there is (`Cip04ZeroIff`, `Cip04ZeroExample`).

## Model

| member | source | states |
|---|---|---|
| `Reorg.ActivateBestChain` | src/reorg.rs:51-180 | Every outcome of a reorganization. Success: the chain state is the replay of all blocks from genesis to the best tip, the header store's active chain ends there and it is still the best, and the pool is what the new branch's blocks leave of the old pool, changed only by admissions; each transaction of the old branch is one of these or is rejected by the final pool. Invalid block: coins, tip and height are as before, the branch is marked invalid and no replay goes through the block; the rejected tip is no longer the best, unless it is the header store's active tip; the pool is what the connected blocks left of it, with what they confirmed offered again. Already best, missing blocks, unknown tip, too deep: nothing changes. Unreadable block: it is the next block of one of the two branches, the state stands exactly before it and the pool has followed as far; with both branches readable this cannot happen. What the node guarantees between calls holds again exactly if the header store is still valid, which is so unless it was switched away from a tip with a stored child, and the branch that is best then overwrites no unspent coin and stays within 32-bit heights. |
| `Reorg.Move` | src/reorg.rs:104-158 | The phases keep the chain state on one of the two branches at or above the fork point. They end at the new tip with both branches read and the pool reduced by every block of the new one; back at the old tip with the blocks up to the invalid one read and the transactions set aside offered to the pool again; or directly before an unreadable block, with the pool as far as the chain state. |
| `Reorg.DisconnectDown` | src/reorg.rs:104-119 | Disconnecting the old branch fails only on a block of it that cannot be read, and then stands on that block; otherwise it ends at the fork point with every block read and exactly the non-coinbase transactions collected, highest block first. |
| `Reorg.ConnectUp` | src/reorg.rs:120-141 | Connecting the new branch stops only at a block of it that cannot be read, or at one through which the branch cannot be replayed from genesis; every block before was read. The pool is the old one after removing each connected block's transactions and conflicts, in order, and the list set aside holds, block by block, what was in the pool just before. |
| `Reorg.Rollback` | src/reorg.rs:183-216 | Rolling back from any number of connected blocks restores the old branch unless a block of the two lists cannot be read; neither fatal exit can be reached. |
| `Reorg.Reconnect` | src/reorg.rs:201-215 | Blocks that were connected before connect again; it stops only at a listed block that cannot be read. |
| `Reorg.MakePlan` | src/reorg.rs:57-102 | The decision before anything moves: fork point, both paths, the two depth limits, and exactly the blocks of the new path that are not indexed. |
| `Reorg.MissingBlocks` | src/reorg.rs:94-102 | Exactly the hashes of the path that are not in the index, in path order. |
| `Reorg.PoolTxsOf` | src/reorg.rs:131-137 | Exactly the block's non-coinbase transactions that are in the pool, in block order. |
| `Reorg.Settle` | src/reorg.rs:161-165 | The header store switches to the new tip, which stays the best, and remains valid exactly if its old tip is the new one or childless; the pool changes only by admissions of transactions of the old branch, and each of them is admitted or rejected by the final pool. |
| `Reorg.SwitchedBest` | src/headers.rs:1150-1166 | Switching to the best tip leaves it the best. |
| `Reorg.NeverReplays` | src/reorg.rs:126-157 | A branch rejected at a block has no replay through it, to whatever height. |
| `Reorg.FollowedNext` | src/reorg.rs:128-139 | One more connected block takes its transactions and conflicts out of the pool, and sets aside those that were in it. |
| `Reorg.StoppedUnreadable` | src/reorg.rs:107-126 | What stops a reorganization part of the way is a block of one of the two branches. |
| `Counterexamples.StoppedHalfWay` | src/reorg.rs:107-126 | Four headers, one connected block, a better branch that is indexed but cannot be read: the call disconnects the block and leaves the chain state at genesis without its coin. |
| `Counterexamples.RetriedForever` | src/headers.rs:1150-1166 | The header store's active tip is two blocks ahead of the chain state and its top block creates too much money: every call, however often repeated, connects, fails, rolls back and leaves the rejected tip the best. |
| `ReorgSpec.StepDown` | src/chainstate/mod.rs:413-527 | From the replay of n blocks of a branch, disconnecting the top block succeeds and gives the replay of n - 1. |
| `ReorgSpec.StepUp` | src/chainstate/mod.rs:203-406 | From the replay of n blocks of a branch, a successful connect of the next gives the replay of n + 1. |
| `ReorgSpec.Reconnects` | src/reorg.rs:201-215 | A block of a chain that was connected connects again on the same prefix, whatever happened in between. |
| `ReorgSpec.ChangeBranch` | src/reorg.rs:121-124 | Up to the fork point a state of one branch is a state of the other. |
| `ReorgSpec.RejectedEndsReplay` | src/reorg.rs:126-157 | A block connects on its parent exactly if the branch replays through it. |
| `ReorgSpec.StandsAtTip` | src/reorg.rs:51-65 | Wherever a reorganization leaves the chain state, it is the replay of the branch of its own tip. |
| `SupplyRuns.SupplyCap` | src/chainstate/mod.rs:235-354 | In every state any run of connects and disconnects can reach from no coins, the unspent value is at most the subsidies up to the tip, which is below the money cap, whether or not blocks overwrite unspent coins. Blocks offered are checked, name the last block as parent and are not on the chain; a block with the tip's hash is the tip block. |
| `SupplyRuns.StepSits` | src/chainstate/mod.rs:203-527 | One call keeps every block connected on coins that its parent left, overwritten coins or not. |
| `SupplyRuns.DisconnectWithin` | src/chainstate/mod.rs:457-500 | Undoing a block on fewer coins than it left gives no coin it did not find. |
| `SupplyRuns.LayerMoney` | src/chainstate/mod.rs:235-354 | Coins on top of k connected blocks are well-formed and total at most what k blocks issued. |
| `Replay.RunRepresents` | src/chainstate/mod.rs:203-527 | After any run the coins, tip, height and stored undo records are those of replaying some chain from genesis. |
| `Replay.StepRepresents` | src/chainstate/mod.rs:203-527 | One call, successful or failed, keeps the state the replay of the tracked chain. |
| `Replay.ConnectExtends` | src/chainstate/mod.rs:203-406 | A successful connect represents the chain with the block appended, including its undo record. |
| `Replay.DisconnectShrinks` | src/chainstate/mod.rs:413-527 | Disconnecting the tip of a represented chain always succeeds and represents the chain without it. |
| `Replay.ReplayMoney` | src/chainstate/mod.rs:235-354 | Along every chain of checked blocks that replays, overwritten coins or not, coins stay well-formed and their total is at most what was issued. |
| `ChainSpec.ConnectThenDisconnect` | src/chainstate/mod.rs:203-527 | Connect, write the undo record to bytes, read it back, disconnect: always succeeds, and restores coins and tip exactly if no unspent coin was overwritten and the block names the tip as its parent. |
| `Counterexamples.RepeatedCoinbaseLosesCoin` | src/chainstate/mod.rs:238-240 | From the empty state two blocks with the same coinbase connect; disconnecting the second destroys the coin of the first. |
| `ChainSpec.FreshOutputsSuffice` | src/chainstate/mod.rs:76-101 | Outputs that are new as outpoints overwrite nothing. |
| `ChainSpec.UndoLoads` | src/chainstate/mod.rs:429-445 | The record connecting wrote is the one disconnecting loads, with the count it expects. |
| `ChainSpec.ConnectValid` | src/chainstate/mod.rs:235-333 | Connecting checked transactions keeps all coins and the undo record within the encodable ranges. |
| `UndoTheorems.DisconnectUndoesConnect` | src/chainstate/mod.rs:235-333 | On coins alone: undoing a connected block succeeds, and restores the map exactly if the block overwrote no unspent coin; outputs created and spent inside the block included. |
| `UndoTheorems.DisconnectPointwise` | src/chainstate/mod.rs:457-500 | Outpoint by outpoint, what disconnecting leaves, from how the block first touched it. |
| `UndoTheorems.SpendFacts` | src/chainstate/mod.rs:250-282 | Spending finds each input, records its coin in order, and removes exactly those outpoints. |
| `UndoTheorems.ConnectTxFacts` | src/chainstate/mod.rs:235-332 | A connected transaction removes its inputs, adds its outputs, and appends one undo entry unless it is a coinbase. |
| `UndoTheorems.RestoreFacts` | src/chainstate/mod.rs:487-497 | Putting coins back in input order restores exactly the inputs. |
| `ChainStateClass.ChainState.ConnectBlockAt` | src/chainstate/mod.rs:203-406 | The object moves to the specified state or reports the error and does not change; when it does which is `ConnectsIff`. |
| `ChainStateClass.ChainState.DisconnectBlockAt` | src/chainstate/mod.rs:413-527 | The same for disconnecting. |
| `ChainStateClass.ApplyBlock` | src/chainstate/mod.rs:225-354 | The loop over the transactions and the coinbase check compute the block's effect or the first error. |
| `ChainStateClass.ApplyTx` | src/chainstate/mod.rs:235-332 | One transaction: spends, scripts, output sum, fee, new coins, with the program's first error; when it succeeds is `TxConnectsIff`. |
| `ChainStateClass.SpendInputs` | src/chainstate/mod.rs:250-282 | The input loop with its missing, immature and overflow errors. |
| `ChainStateClass.VerifyScripts` | src/chainstate/mod.rs:284-302 | True exactly if every input script accepts the coin it spends. |
| `ChainStateClass.AddOutputs` | src/chainstate/mod.rs:304-310 | The checked sum of the outputs. |
| `ChainStateClass.InsertOutputs` | src/chainstate/mod.rs:76-101 | Exactly the transaction's outputs are added, with height and coinbase mark. |
| `ChainStateClass.RevertTxs` | src/chainstate/mod.rs:457-500 | The reverse loop over the transactions computes the specified undo. |
| `ChainStateClass.RestoreInputs` | src/chainstate/mod.rs:487-497 | The loop that puts spent coins back. |
| `BlockRules.ReplaysIff` | src/chainstate/mod.rs:203-406 | Which chains replay, stated without running them: exactly those in which every block keeps the rules below, with each input looked up backwards through the block and the chain; and the coins left are exactly those so found. |
| `BlockRules.BlockConnectsIff` | src/chainstate/mod.rs:212-354 | A block connects exactly if every transaction but the coinbase spends different coins that exist at that point, are mature and, above the verified height, have scripts that accept; its inputs pay for its outputs; no sum leaves 64 bits; and the first transaction creates at most subsidy and fees. |
| `BlockRules.TxConnectsIff` | src/chainstate/mod.rs:235-332 | The same for one transaction, on the coins of the block so far. |
| `BlockRules.ScriptsVerified` | src/chainstate/mod.rs:284-302 | In every chain that replays, each input of each block above the verified height names an output of an earlier transaction, of the same block or before, and the verifier accepted the input against that output's script. |
| `BlockRules.ScriptsSkipped` | src/chainstate/mod.rs:284-302 | Up to that height the scripts do not matter: rules that differ only in the verifier replay every chain alike. |
| `BlockRules.ConnectsIff` | src/chainstate/mod.rs:203-406 | The call succeeds exactly for the next height and a block that keeps the rules. |
| `BlockRules.DisconnectsIff` | src/chainstate/mod.rs:413-527 | The call succeeds exactly for the tip, if it is not the genesis block and its stored record can be read and has an entry for every transaction with a coin for every input; the tip is then the parent. |
| `Supply.BlockConserves` | src/chainstate/mod.rs:235-354 | A connected block raises the total of unspent coins by at most its subsidy. |
| `Supply.TxsConserve` | src/chainstate/mod.rs:235-333 | Along the block, coins plus fees grow by at most what the coinbase creates. |
| `Supply.TxConserves` | src/chainstate/mod.rs:235-333 | A transaction never increases coins plus fees. |
| `Supply.IssuedBelowMaxMoney` | src/validation/subsidy.rs:24-36 | The subsidies of any number of blocks sum to less than the money cap. |
| `Supply.IssuedExactly` | src/validation/subsidy.rs:24-36 | From the end of the 33rd era on exactly 2099994997690000 units have been issued, at every height. |
| `Supply.IssuedIs` | src/validation/subsidy.rs:24-36 | What has been issued at every height, from the sums of the eras. |
| `Supply.SubsidyIs` | src/validation/subsidy.rs:24-36 | At every height the subsidy is fifty coins halved once for each 210000 blocks; the cut at 64 halvings changes nothing. |
| `UndoCodec.UndoRoundTrip` | src/chainstate/undo.rs:108-164 | Decoding the encoding of any undo record within the limits gives the record. |
| `UndoCodec.TxUndoRoundTrip` | src/chainstate/undo.rs:30-100 | The same for the entry of one transaction. |
| `UndoCodec.CoinRoundTrip` | src/chainstate/coin.rs:31-84 | The same for a coin, including negative values in two's complement. |
| `UndoCodec.ListRoundTrip` | src/chainstate/undo.rs:30-164 | A counted list of length-prefixed items reads back. |
| `UndoCodec.EncodeBlockUndo` | src/chainstate/undo.rs:108-126 | The encoding loop writes the specified bytes. |
| `UndoCodec.DecodeBlockUndo` | src/chainstate/undo.rs:130-164 | The cursor loop reads the specified record, or fails on the same inputs. |
| `UndoCodec.EncodeTxUndo` | src/chainstate/undo.rs:30-48 | The encoding loop for one transaction. |
| `UndoCodec.ReadList` | src/chainstate/undo.rs:58-100 | The decoding loop with its bounds checks, for any item decoder. |
| `HeaderStoreClass.HeaderStore.Accept` | src/headers.rs:903-970 | Accepting a header on any known parent is the specified step, a rejection changes nothing, and three invariants are kept: the indexes agree with the tree, every header has the bits and work its own ancestors require, and every header without children is known as a tip, invalid or active. |
| `HeaderStoreClass.HeaderStore.Add` | src/headers.rs:503-540 | The same for linear extension of the active chain. |
| `HeaderStoreClass.HeaderStore.ValidateAndCommit` | src/headers.rs:582-715 | A batch is validated in full and then committed, or nothing changes; the three invariants are kept. |
| `HeaderStoreClass.HeaderStore.SwitchActiveChain` | src/headers.rs:1028-1053 | Fails only on an unknown tip; rebuilds the path; the best is the new active tip or a tip with more work; keeps the invariant exactly if the old tip had no stored child. |
| `HeaderStoreClass.HeaderStore.MarkInvalid` | src/headers.rs:1056-1087 | Exactly the header and the tips descending from it become invalid; the active chain and the tree stay; the invariant is kept; the best is the active tip or a tip with more work, so a rejected best stays the best exactly if it is the active tip. |
| `HeaderStoreClass.HeaderStore.RecomputeBestTip` | src/headers.rs:1150-1166 | The best is the active tip or a tip with more work than it, and no tip has more work than the best. |
| `HeaderStoreClass.HeaderStore.RemoveFork` | src/headers.rs:1168-1188 | Removes only inactive ancestors of the tip, leaves no header without its parent, and keeps every other header. |
| `HeaderStoreClass.HeaderStore.PurgeStaleForks` | src/headers.rs:1101-1136 | No stale tip remains, and fork headers are within the limit or no tip is left. With few enough fork headers every other tip stays; otherwise one goes only if none that stays is lower, and only while there are too many. A header goes only with a tip that descends from it, none is left without its parent, and off the active chain none is left whose children all went. The invariant is kept. |
| `HeaderStoreClass.HeaderStore.RemoveLowestForks` | src/headers.rs:1117-1133 | Tips go lowest first, and before the last of them went there were too many fork headers; every other header and the active chain stay. |
| `HeaderStoreClass.HeaderStore.DescendsFrom` | src/headers.rs:1138-1148 | True exactly for ancestors. |
| `HeaderStoreClass.HeaderStore.BuildForkLookup` | src/headers.rs:114-142 | The lookup shows, at every height up to its start, that ancestor, and the active chain above. |
| `HeaderStoreClass.HeaderStore.RebuildChain` | src/headers.rs:1028-1045 | One header per height from genesis to the new tip. |
| `HeaderStoreClass.HeaderStore.CheckSequence` | src/headers.rs:630-695 | Phase 1 of batch validation, header by header. |
| `HeaderStoreClass.HeaderStore.CommitBatch` | src/headers.rs:593-595 | Committing the pending headers one after the other. |
| `HeaderStoreClass.HeaderStore.IsContinuous` | src/headers.rs:611-628 | True exactly if each header names the one before. |
| `HeaderBatch.BatchRefinesAdds` | src/headers.rs:582-715 | For different headers, the known ones form a prefix, and the batch succeeds exactly if adding the rest one by one would, with the same final store. |
| `HeaderBatch.OverlayIsCommitted` | src/headers.rs:80-101 | The batch's overlay lookup shows what the active chain would be after committing. |
| `HeaderBatch.CheckAllIsAddAll` | src/headers.rs:606-715 | Checking a suffix of a batch agrees with adding it, but for when proof of work is looked at. |
| `HeaderBatch.KnownFirst` | src/headers.rs:611-639 | In a continuous batch no known header follows an unknown one. |
| `HeaderSpec.AcceptHeaderInv` | src/headers.rs:903-970 | Accepting keeps the invariant: parents one lower, summed work, linked active path, exact active set, childless tips, best tip. |
| `HeaderSpec.AddHeaderInv` | src/headers.rs:472-540 | Adding keeps the invariant. |
| `HeaderSpec.FreshInv` | src/headers.rs:306-344 | A fresh store satisfies the invariant. |
| `HeaderWork.AcceptWorked` | src/headers.rs:903-970 | Every stored header but genesis carries the bits the rule requires of its own ancestors, on whatever fork, and above the last checkpoint its proof of work: accepting keeps that. Of the rule it is assumed only that it looks at lower heights. |
| `HeaderWork.AddWorked` | src/headers.rs:503-540 | Linear extension keeps it. |
| `HeaderWork.BatchWorked` | src/headers.rs:582-715 | A committed batch keeps it. |
| `HeaderWork.PartWorked` | src/headers.rs:1101-1188 | Removing forks keeps it. |
| `HeaderBest.AcceptIff` | src/headers.rs:903-940 | A header is accepted exactly if it is known, or its parent is known and not an invalid tip, heights stay within 32 bits, its bits are what the parent's own ancestors require, and above the last checkpoint its work is proved. |
| `HeaderBest.AddIff` | src/headers.rs:503-540 | Linear extension succeeds exactly on the active tip, with the same work and not against a checkpoint, and appends the header. |
| `HeaderBest.AcceptFollows` | src/headers.rs:949-968 | A header becomes the best exactly if it has more work, and a reorganization is asked for exactly if it did and is not the active tip; without such a request the best stays active. |
| `HeaderBest.BestHeaviest` | src/headers.rs:1150-1166 | No stored header at all has more work than the best, unless an invalid tip descends from it. |
| `HeaderBest.AcceptLeaves` | src/headers.rs:941-968 | Accepting keeps every header without children among the tips, the invalid tips or the active tip. |
| `HeaderBest.BatchLeaves` | src/headers.rs:582-715 | A committed batch keeps that too. |
| `HeaderBest.AddCheckpointed` | src/headers.rs:441-468 | Linear extension stores nothing but the checkpoint at a checkpoint's height. |
| `HeaderBest.BatchCheckpointed` | src/headers.rs:663-676 | Nor does a batch. |
| `HeaderBest.AcceptCheckpointedIff` | src/headers.rs:903-970 | Accepting keeps that promise exactly if the height has no checkpoint or the header is it. |
| `HeaderBest.CheckpointMissed` | src/headers.rs:903-970 | A header that contradicts the checkpoint of its height: rejected by linear extension, stored by acceptance. |
| `HeaderDifficulty.RulesLookBack` | src/difficulty/mod.rs:226-261 | None of the six difficulty rules looks at the height it decides or above, so they are such a rule. |
| `HeaderDifficulty.AncestorsFollow` | src/difficulty/mod.rs:226-261 | The ancestors of every stored header each have the bits required of them along that fork. |
| `HeaderDifficulty.StoredTargetsBounded` | src/difficulty/mod.rs:226-261 | So every stored header, on any fork, has a target within the limit. |
| `HeaderForks.SwitchKeepsShapeIff` | src/headers.rs:1028-1053 | Switching keeps the shape of the store exactly if the old tip is the new one or has no stored child. |
| `HeaderForks.SwitchFailsReachably` | src/headers.rs:903-970 | Four headers accepted on top of genesis lead to a store where switching makes a header with a child a tip. |
| `HeaderForks.ForkHeadsAgree` | src/headers.rs:114-142 | Walking back to the active chain and using it below gives the ancestor at every height. |
| `HeaderForks.ChainToActive` | src/headers.rs:1033-1045 | The rebuilt chain is a linked path from genesis to the tip. |
| `HeaderTree.FindForkPoint` | src/headers.rs:973-1012 | Fails only on an unknown hash; returns the highest common ancestor; its step bound is never reached. |
| `HeaderTree.GetPath` | src/headers.rs:1015-1025 | For any two hashes: succeeds exactly if the first is stored as an ancestor of the second, with the headers between, lowest first. |
| `HeaderTree.PathUnique` | src/headers.rs:1015-1025 | There is exactly one path between two headers, with consecutive heights. |
| `HeaderTree.ForkPointUnique` | src/headers.rs:973-1012 | Two headers have one fork point. |
| `HeaderTree.MeetingIsForkPoint` | src/headers.rs:973-1012 | Where two walks first meet is the highest common ancestor. |
| `HeaderTree.AncestorTrans` | src/headers.rs:1138-1148 | Ancestry is transitive. |
| `HeaderTree.WalkToGenesis` | src/headers.rs:394-425 | Every stored header leads back to genesis. |
| `MempoolClass.Mempool.AcceptTx` | src/mempool/mod.rs:133-240 | A rejection, for the first reason in the program's order, changes nothing. An accepted transaction is inserted and the pool cut to its limit: nothing is evicted exactly if pool and transaction fit together, and then the transaction is in the pool. Index, sizes, the payability of every entry and the existence of a parents-first order are kept. |
| `MempoolClass.EvictsNothingIff` | src/mempool/mod.rs:275-295 | Eviction removes nothing exactly if everything fits. |
| `MempoolClass.LowestEvicted` | src/mempool/mod.rs:275-295 | In a pool that is too large an entry whose fee rate is below all others never stays. |
| `Counterexamples.AcceptedThenEvicted` | src/mempool/mod.rs:231-239 | Two payments: the second is reported as accepted and is not in the pool. |
| `MempoolClass.Mempool.CheckAccept` | src/mempool/mod.rs:133-212 | The checks in order: form, coinbase, size, duplicate, conflicts and values, fee, rate, scripts. |
| `MempoolAccept.AcceptIff` | src/mempool/mod.rs:133-212 | A transaction is accepted, with a given fee, exactly if it is well formed, no coinbase, at most 102400 bytes and unknown, each input names an output of the coins or the pool that no entry spends and whose script accepts it, and the inputs exceed the outputs by that fee, which is at least one unit per byte. |
| `MempoolAccept.SurvivesIff` | src/mempool/mod.rs:332-365 | An entry survives a block exactly if it is not confirmed and neither it nor an entry it descends from spends what the block spends. |
| `MempoolClass.Mempool.SumInputValues` | src/mempool/mod.rs:157-175 | The input loop with its three errors. |
| `MempoolClass.Mempool.CheckScripts` | src/mempool/mod.rs:194-212 | True exactly if every input script accepts the output it spends. |
| `MempoolClass.Mempool.RemoveWithDescendants` | src/mempool/mod.rs:298-323 | The worklist terminates and removes exactly the transaction and its descendants, keeping index and size exact. |
| `MempoolClass.Mempool.EvictIfNeeded` | src/mempool/mod.rs:275-295 | Round by round an entry with the lowest fee rate goes with its descendants, until the pool fits. |
| `MempoolClass.Mempool.FindLowestRate` | src/mempool/mod.rs:277-287 | No entry has a lower fee rate. |
| `MempoolClass.Mempool.RemoveBlockTxs` | src/mempool/mod.rs:332-365 | Exactly the confirmed transactions and the descendants of conflicting ones leave. |
| `MempoolClass.Mempool.FindConflicts` | src/mempool/mod.rs:347-355 | Exactly the other pool transactions that spend an input of the block transaction. |
| `MempoolClass.Mempool.ReaddDisconnectedTxs` | src/mempool/mod.rs:373-404 | The pool goes from what it was to what it is by admissions alone, each accepted by the pool as it then was and followed by the evictions the size limit asks for; every non-coinbase transaction, counted with repetition, was admitted or is left over and rejected by the final pool; the invariants are kept. |
| `MempoolClass.Mempool.ReaddPass` | src/mempool/mod.rs:381-401 | One pass changes the pool by its admissions alone, each accepted by the pool as it then was; what is not admitted remains; a pass that accepts nothing changes nothing and has rejected everything. |
| `MempoolClass.EvictionKeepsParents` | src/mempool/mod.rs:275-295 | Eviction never separates a transaction from a parent in the pool. |
| `MempoolSpec.WithoutInv` | src/mempool/mod.rs:302-308 | Removing an entry keeps the spending index and the total size exact. |
| `MempoolSpec.PrunedKeepsParents` | src/mempool/mod.rs:298-323 | Removing a family leaves no child of a removed transaction. |
| `MempoolRules.AcceptedSound` | src/mempool/mod.rs:133-235 | Inserting an accepted transaction keeps the index and the payability of every entry. |
| `MempoolRules.KeptSound` | src/mempool/mod.rs:275-323 | Entries that keep their parents stay payable. |
| `MempoolRules.EvaluatedPayable` | src/mempool/mod.rs:133-212 | An accepted transaction conflicts with nothing, its inputs exist and accept, and they pay outputs plus exactly the fee. |
| `MempoolBlocks.BlockKeepsSound` | src/mempool/mod.rs:332-365 | After a block connects, every entry left is payable against the new coins and spends nothing the block spent. |
| `MempoolBlocks.BlockCoins` | src/chainstate/mod.rs:235-333 | After a block a coin is an old one or created by it, and what it did not spend is still there. |
| `MempoolBlocks.PruneNext` | src/mempool/mod.rs:358-364 | Removing families one after the other removes their union. |
| `MempoolTemplate.PoolConnects` | src/mempool/mod.rs:133-240 | Listed parents first, with no output already a coin, pool transactions connect as a block body exactly if none spends a young coinbase, and the block then collects exactly their fees, which fit because they are paid from the coins. |
| `MempoolTemplate.WholePoolConnects` | src/mempool/mod.rs:133-240 | Some order of the whole pool connects, with all its fees, exactly if no transaction of it spends a young coinbase. |
| `Counterexamples.YoungCoinbaseAccepted` | src/mempool/mod.rs:157-212 | After one block the pool accepts a payment of its coinbase; a checked next block with its own coinbase connects without that payment and fails as immature with it. |
| `MempoolRuns.RunGood` | src/mempool/mod.rs:133-365 | After any run of offered transactions and connected blocks from an empty pool: index and sizes are exact, every entry is payable from the current coins and the pool, a parents-first order exists, and no entry is confirmed. |
| `MempoolRuns.RunConnects` | src/mempool/mod.rs:133-365 | After any such run the whole pool, in some parents-first order, connects as a block body with exactly its fees if and only if no entry spends a coinbase that is too young. |
| `MempoolRuns.BlockUnconfirmed` | src/mempool/mod.rs:332-365 | An entry that survives a connected block has no output among the coins the block leaves. |
| `MempoolOrder.AcceptedOrderable` | src/mempool/mod.rs:157-229 | An accepted transaction can come last: a pool with a parents-first order keeps one. |
| `MempoolOrder.KeptOrderable` | src/mempool/mod.rs:275-323 | Eviction keeps a parents-first order. |
| `MempoolOrder.BlockOrderable` | src/mempool/mod.rs:332-365 | A connected block keeps a parents-first order, against the new coins. |
| `MempoolTemplate.OneConnects` | src/chainstate/mod.rs:235-333 | A payable transaction whose inputs are coins connects exactly if those coins are mature. |
| `DownloadRuns.RunBounded` | src/nodes/block_download.rs:238-290 | In every reachable state: at most 512 in flight, 48 with one peer, 1024 in flight or waiting; waiting blocks are above the next one to connect. |
| `DownloadRuns.RunHealthy` | src/nodes/block_download.rs:238-290 | As long as fills find room, no height between the next to connect and the next to request is lost, and a place stays free for the next block. |
| `DownloadRuns.StepHealthyIff` | src/nodes/block_download.rs:309-862 | Each event keeps coverage and the free place, a fill exactly if a peer had room for what it collected. |
| `DownloadRuns.EmptyWindowRequests` | src/nodes/block_download.rs:309-503 | With an empty window and a usable peer, a fill requests the lowest missing block, which is not above the next to connect. |
| `DownloadRuns.ElevenPeersSuffice` | src/nodes/block_download.rs:382-406 | With eleven usable peers a fill always finds room. |
| `DownloadRuns.HeightLost` | src/nodes/block_download.rs:403-406 | A fresh manager whose only peer is excluded moves past the block and no later fill asks for it. |
| `DownloadRuns.NeverDiscards` | src/nodes/block_download.rs:599-620 | The waiting buffer is never full when a block arrives. |
| `DownloadRuns.ReceiveKeeps` | src/nodes/block_download.rs:510-630 | A received block, valid or not, connected, buffered or stored, keeps limits, coverage and the free place. |
| `DownloadProgress.ReceivedConnected` | src/nodes/block_download.rs:510-685 | In every reachable state the next block to connect is the lowest one that has not arrived since the last reset, and all below it are stored. So when every block of the header chain has arrived, in any order and with any timeouts, disconnects and refills between, all are connected, and only then. |
| `DownloadProgress.ReceiveProgress` | src/nodes/block_download.rs:510-626 | A requested block that is valid is never lost: the one needed next, if it connects, is stored and the row waiting behind it follows; one above waits at its height; one below is stored. It is asked for again exactly if it cannot be used. |
| `DownloadProgress.DrainIs` | src/nodes/block_download.rs:676-685 | Draining connects and stores exactly the unbroken row of waiting blocks that connect, drops the one that fails and asks for it again, and leaves the rest. |
| `DownloadProgress.RunTracks` | src/nodes/block_download.rs:510-868 | After any run, what was received since the last reset is connected or waits, and nothing else is. |
| `DownloadProgress.RunStores` | src/nodes/block_download.rs:510-868 | No event, not even a reorganization, gives up a block on disk. |
| `DownloadProgress.FillRequests` | src/nodes/block_download.rs:309-503 | With 128 free places or an empty window a fill requests exactly the missing blocks it passes, lowest first, and stops only at the end of the chain, when the places are used, or when every usable peer has 48. |
| `DownloadProgress.CommitExact` | src/nodes/block_download.rs:466-500 | Each sent request is recorded once, and each peer's count rises by what it was given. |
| `DownloadProgress.DropsExactly` | src/nodes/block_download.rs:748-845 | A timeout drops exactly the stale requests and those of struck-out peers, a disconnect exactly the peer's, and the next fill starts no higher than the lowest of them. |
| `DownloadRuns.DrainKeeps` | src/nodes/block_download.rs:676-685 | Draining keeps limits and coverage whatever fails to connect. |
| `DownloadRuns.ConnectedDrains` | src/nodes/block_download.rs:642-668 | Connecting the next block frees a place, keeps the limits and loses no height. |
| `DownloadRuns.GivenBack` | src/nodes/block_download.rs:629-635 | Taking a request back and lowering the next height keeps limits, coverage and the free place. |
| `DownloadRuns.ResetHealthy` | src/nodes/block_download.rs:851-862 | After a reset above a tip of the new chain all three promises hold, whatever the window was. |
| `DownloadRuns.DropKeeps` | src/nodes/block_download.rs:748-848 | Dropping any set of requests and rewinding keeps limits, coverage and the free place. |
| `DownloadRuns.FullPeers` | src/nodes/block_download.rs:373-401 | Peers at the limit hold 48 requests each. |
| `DownloadTheorems.FillBounded` | src/nodes/block_download.rs:309-503 | Filling keeps every limit. |
| `DownloadTheorems.FillCoveredIff` | src/nodes/block_download.rs:309-503 | Filling keeps coverage exactly if it does not collect a needed height with no peer to ask. |
| `DownloadTheorems.FillLeavesPlace` | src/nodes/block_download.rs:309-503 | Filling leaves a place for the block needed next, even if its request could not be sent. |
| `DownloadTheorems.ScanFacts` | src/nodes/block_download.rs:336-371 | The scan collects, in order, exactly the missing heights of the range it passes. |
| `DownloadTheorems.SlotCount` | src/nodes/block_download.rs:382-401 | Every usable peer is offered exactly the places it has room for, and no other peer any. |
| `DownloadTheorems.CommitFacts` | src/nodes/block_download.rs:464-496 | Exactly the sent requests are added. |
| `DownloadClass.DownloadManager.FillWindow` | src/nodes/block_download.rs:309-503 | The three phases compute the specified window, including the early return without a rewind. |
| `DownloadClass.DownloadManager.Collect` | src/nodes/block_download.rs:336-367 | The batched scan is the height-by-height scan. |
| `DownloadClass.DownloadManager.FindRooms` | src/nodes/block_download.rs:375-401 | The usable peers with the room each has left. |
| `DownloadClass.HandOut` | src/nodes/block_download.rs:408-451 | Peers are filled one after the other. |
| `DownloadClass.DownloadManager.Send` | src/nodes/block_download.rs:453-503 | Sent requests are in flight, the lowest failed height is requested again. |
| `DownloadClass.DownloadManager.HandleReceivedBlock` | src/nodes/block_download.rs:510-626 | Validation failure, connection, buffering and late arrival compute the specified window; what that means is `ReceiveProgress`. |
| `DownloadClass.DownloadManager.DrainPending` | src/nodes/block_download.rs:676-685 | Waiting blocks are connected in order until a gap or a failure. |
| `DownloadClass.DownloadManager.HandlePeerDisconnect` | src/nodes/block_download.rs:748-772 | All requests of the peer are dropped and the lowest of them is requested again. |
| `DownloadClass.DownloadManager.HandleTimeoutScan` | src/nodes/block_download.rs:777-845 | Stale requests, then those of struck-out peers, are dropped as if all at once. |
| `DifficultyTheorems.ChainTargetsBounded` | src/difficulty/mod.rs:226-261 | On every chain that follows the rules, every target is at most the limit. |
| `DifficultyTheorems.ExactChainTargetsBounded` | src/difficulty/mod.rs:226-261 | The same with the PID controller in exact arithmetic, with nothing assumed about it. |
| `Pid.OutputBounded` | src/difficulty/cip04.rs:46-74 | For every average of 32-bit timestamps the scaled controller output in exact arithmetic is above -2^43. |
| `DifficultyTheorems.NextTargetBounded` | src/difficulty/mod.rs:226-261 | Whatever rule is in force, the required target is at most the limit and no left shift drops a bit; after CIP01 no product and no sum leaves 256 bits. |
| `DifficultyTheorems.RetargetKeeps` | src/difficulty/cip02.rs:42-70 | Shifting a retarget result back drops no bit, whenever the product fits. |
| `DifficultyTheorems.AlignKeeps` | src/difficulty/cip04.rs:79-105 | Aligning the controller output with the target drops no bit, for both signs, and the sum fits. |
| `DifficultyTheorems.Cip01AbortsIff` | src/difficulty/cip01.rs:59-72 | Over the longest clamped period CIP01 leaves 256 bits exactly above a fixed target: the one-bit shift never rescues it. |
| `DifficultyTheorems.Cip01Safe` | src/difficulty/cip01.rs:59-72 | Up to that target no period makes CIP01 leave 256 bits. |
| `DifficultyTheorems.Cip01AbortExample` | src/difficulty/cip01.rs:59-72 | On every chain from the genesis bits that follows the rules, a first period of eight weeks or more leaves 256 bits. |
| `DifficultyTheorems.FirstPeriodBits` | src/difficulty/cip01.rs:27-35 | Inside the first period every block repeats the bits of genesis. |
| `DifficultyTheorems.PeriodicBounded` | src/difficulty/cip02.rs:20-70 | Periodic retargeting stays at or below the limit and its shifts drop no bit; with the short period nothing overflows. |
| `DifficultyTheorems.Cip03Bounded` | src/difficulty/cip03.rs:22-66 | The per-block rule stays at or below the limit, overflows nothing and drops no bit. |
| `DifficultyTheorems.Cip04Bounded` | src/difficulty/cip04.rs:32-116 | The integer tail of the PID rule stays at or below the limit, overflows nothing and drops no bit, for every controller output that is not below -2^43. |
| `DifficultyTheorems.Cip04ZeroIff` | src/difficulty/cip04.rs:32-116 | When the rule requires a target no hash can meet: with an average block time near the spacing, exactly if the parent's target is zero; otherwise exactly if the halved controller output is not negative and at least the parent's target. |
| `DifficultyTheorems.MovedZeroIff` | src/difficulty/cip04.rs:80-105 | The adjustment uses a target up exactly if the halved output is at least the target; a target of more than 24 bits is never used up. |
| `DifficultyTheorems.Cip04ZeroExample` | src/difficulty/cip04.rs:87-105 | Nine blocks with one timestamp and target 1: the next target is 0. |
| `DifficultyTheorems.Cip05Bounded` | src/difficulty/cip05.rs:25-69 | The time-gated rule and its fallback, likewise. |
| `DifficultyTheorems.Cip06Bounded` | src/difficulty/cip06.rs:32-100 | The weighted average stays at or below the limit and inside 256 bits. |
| `DifficultyTheorems.LwmaSixTimesMean` | src/difficulty/cip06.rs:32-100 | The LWMA target is at most six times the mean of the window. |
| `DifficultyResponse.LwmaSteady` | src/difficulty/cip06.rs:32-100 | If the last 45 blocks have target t and each took s seconds, the next target is t * s / 600, with times above an hour counted as an hour, rounded down by less than 46575 units per second of s, and held at the limit; for every s and t. |
| `DifficultyResponse.DelayWeighs` | src/difficulty/cip06.rs:54-91 | If block i of the window and all after it come d seconds later, within the cap, the weighted sum grows by exactly i * d: the oldest block has weight 1, the newest 45. |
| `DifficultyResponse.WeightedIs` | src/difficulty/cip06.rs:54-91 | The weighted sum of every window, from its stamps: position times the time since the stamp before, at most an hour. |
| `DifficultyResponse.StampIs` | src/difficulty/cip06.rs:59-72 | The stamp of a block is the latest time any block of the window up to it allows, at one second per block. |
| `DifficultyResponse.AverageBounds` | src/difficulty/cip06.rs:82-91 | The accumulated average is the window's target sum, rounded down by less than one unit per block. |
| `DifficultyResponse.SteadyToday` | src/difficulty/mod.rs:226-261 | Above height 397000 that is what the node requires. |
| `DifficultyResponse.PeriodicRule` | src/difficulty/mod.rs:226-261 | Up to height 21346: the target changes only every 2016 blocks, then every 36, in proportion to the time since the named block, between a quarter and four times; the reset at 20290. |
| `DifficultyResponse.TightRule` | src/difficulty/cip03.rs:22-66 | From 21347 to 27260 every block moves it in proportion to the time of the last 36, within twelve percent. |
| `DifficultyResponse.GatedRule` | src/difficulty/cip05.rs:25-69 | From 27261 on the controller decides; from 46332 to 397000 only if the seconds of the parent's time are outside the two gates, and inside them the target moves in proportion to the last block's time, between 450 and 900 seconds. |
| `DifficultyResponse.PidRule` | src/difficulty/cip04.rs:32-116 | By the average of the last eight blocks: between 590 and 610 seconds nothing changes, otherwise the target falls by the controller's output in units of its own magnitude, between zero and the limit. |
| `DifficultyResponse.PidDirection` | src/difficulty/cip04.rs:55-71 | In exact arithmetic the output is positive for every average up to 590 seconds and negative from 610 on. |
| `DifficultyResponse.PidExamples` | src/difficulty/cip04.rs:55-71 | In exact arithmetic: the outputs for averages of 300 and 1200 seconds, with the smaller and the larger gain. |
| `DifficultyResponse.MovedExact` | src/difficulty/cip04.rs:79-105 | The adjustment for every target and output, both signs. |
| `DifficultyTheorems.FloorIsLimit` | src/difficulty/cip04.rs:25-26 | The floor constant is the encoded limit. |
| `Difficulty.LwmaNextWork` | src/difficulty/cip06.rs:32-100 | The window loop computes the rule, with the same error for a missing header; what the rule does is `LwmaSteady` and `WeightedIs`. |
| `Difficulty.HalveToMantissa` | src/difficulty/cip04.rs:73-77 | The result is the first of r, r/2, r/4, ... that fits 23 bits: one halving fewer does not fit. |
| `Difficulty.TargetBitLength` | src/difficulty/cip04.rs:121-141 | The shifting loop counts the bits; its cap is never reached. |
| `Compact.CodecRoundTrip` | src/difficulty/compact.rs:26-78 | For every 256-bit target no flag is set, decoding does not exceed it, and encoding again changes nothing. |
| `Compact.CompactOrder` | src/difficulty/compact.rs:26-78 | Comparing encodings as integers compares the targets they decode to. |
| `Compact.ClosedForm` | src/difficulty/compact.rs:52-78 | The encoding without its case split: byte length of twice the target, leading bytes. |
| `Compact.EncodeMonotone` | src/difficulty/compact.rs:52-78 | Encoding is monotone. |
| `Compact.WorkIsQuotient` | src/difficulty/compact.rs:84-96 | The complement trick computes the quotient of 2^256 by the target plus one. |
| `Compact.WorkFromBitsSpec` | src/difficulty/compact.rs:84-96 | Work of a compact value, zero for flagged or zero targets. |
| `Compact.WorkAntitone` | src/difficulty/compact.rs:84-96 | Work falls as the target grows. |
| `Compact.BitsU256` | src/difficulty/compact.rs:102-116 | The word loop computes the bit length. |
| `Merkle.MerkleBinding` | src/types/block.rs:197-240 | With an injective pair hash that is never a leaf, two unflagged lists of any lengths have the same root exactly if they are equal. |
| `Merkle.ComputeMerkleRoot` | src/types/block.rs:197-240 | The level loop computes the root and the flag: an equal pair at some level. |
| `Merkle.FindEqualPair` | src/types/block.rs:209-213 | True exactly if a complete pair holds the same hash twice. |
| `Merkle.OddCopyCollides` | src/types/block.rs:197-240 | Copying the last hash of an odd list keeps the root and is always flagged. |
| `Merkle.NextBinding` | src/types/block.rs:215-233 | Two unflagged levels with the same successor are equal. |
| `Merkle.RootIsTree` | src/types/block.rs:197-240 | The root computed level by level is the hash of the smallest binary tree over the leaves, left half and right half, where a missing right half is a copy of the left. |
| `Merkle.DifferentUnflagged` | src/types/block.rs:197-240 | A list without repeated hashes is never flagged. |
| `Multisig.MatchSignatures` | src/script/engine.rs:815-842 | The greedy loop succeeds exactly if signatures can be given verifying keys in strictly increasing order. |
| `Multisig.TakeKey` | src/script/engine.rs:815-842 | Taking the first key that fits never loses an assignment. |
| `Multisig.SkipKey` | src/script/engine.rs:815-842 | A key that does not fit can be passed over. |
| `Multisig.Mirror` | src/script/engine.rs:765-856 | Signatures and keys taken from the top of the stack can be assigned exactly if they can in the order they were pushed. |
| `Script.SeparatorsRemovedExactly` | src/script/signature.rs:162-214 | Exactly the separators at instruction positions are removed, and doing it twice changes nothing. |
| `Script.RemoveCodeseparators` | src/script/signature.rs:162-214 | The byte walk keeps every other instruction, in every script, cut off or not. |
| `Script.IsPushOnly` | src/script/verify.rs:78-119 | The byte walk holds exactly if every instruction is a push with all its length bytes. |
| `Script.ChunksOfFlatten` | src/script/signature.rs:162-214 | Reassembling instructions and disassembling them again changes nothing. |
| `ScriptTheorems.WalkersAgree` | src/script/engine.rs:112-206 | When a script executes, it is push-only exactly if no operation was counted, and then the stack is the initial one plus the pushed items. |
| `ScriptTheorems.RunBoundaries` | src/script/engine.rs:112-206 | A successful run visits exactly the instructions of the disassembly, all whole. |
| `ScriptTheorems.PushOnlyExecutes` | src/script/engine.rs:112-206 | Exactly when push-only code executes, and its result. |
| `ScriptEngine.StepBoundary` | src/script/engine.rs:112-206 | A successful turn consumes exactly one whole instruction. |
| `ScriptEngine.IsTruthy` | src/script/engine.rs:860-878 | True exactly if some byte is not zero, other than a lone sign bit at the end. |
| `EngineClass.Engine.ExecuteScript` | src/script/engine.rs:112-206 | The loop over the fields computes the run, error by error. |
| `EngineClass.Engine.Turn` | src/script/engine.rs:117-199 | One turn: disabled opcodes, operation limit, skipped branches, stack limit. |
| `EngineClass.Engine.OpCheckMultiSig` | src/script/engine.rs:765-856 | Key and signature counts, limits and the outcome by existence of an assignment. |
| `EngineClass.Engine.OpPush` | src/script/engine.rs:218-256 | Every push form with its length and size checks. |
| `EngineClass.Engine.OpSkip` | src/script/engine.rs:147-187 | In a branch not executed only conditionals and whole pushes matter. |
| `EngineClass.Engine.OpApply` | src/script/engine.rs:401-613 | Conditionals, separator, equality, hash and multisig. |
| `VerifyInput.P2shRule` | src/script/verify.rs:17-58 | Exactly when a pay-to-script-hash input verifies, in terms of its pushed items and the redeem script. |
| `VerifyInput.VerifyScript` | src/script/verify.rs:17-58 | The two runs, the truth checks and the redeem script run compute the verdict and its error; what it takes to verify is `OrdinaryRule`, `MultisigRule` and `P2shRule`. |
| `VerifyInput.P2shRun` | src/script/verify.rs:121-125 | Running the output script compares the hash of the top item and leaves the rest. |
| `ScriptRules.OrdinaryRule` | src/script/verify.rs:17-58 | Whatever the output, an input verifies only if the output script, run on what the input script left, ends with a true item; if the output is not pay-to-script-hash that is exactly what it takes. |
| `ScriptRules.MultisigRule` | src/script/verify.rs:17-58 | A bare multisig output and a push-only input script: it verifies exactly if the pushes fit the limits and the last n items are signatures for the keys, in order, with one more item below them. |
| `ScriptRules.P2shMultisigRule` | src/script/verify.rs:17-58 | The same script behind its hash, pushed as the last item. |
| `ScriptRules.MultisigRun` | src/script/engine.rs:765-856 | A multisig script run on any items ends with a true one exactly under that condition. |
| `ScriptRules.CheckMultiSigIs` | src/script/engine.rs:765-856 | On a stack laid out as the operation expects, it takes the counts, keys, signatures and one more item, counts the keys as operations, and leaves whether the signatures fit the keys. |
| `ScriptRules.CheckMultiSigNeeds` | src/script/engine.rs:765-856 | It succeeds only on such a stack, with counts within the limits. |
| `ScriptRules.VerifyVariant` | src/script/engine.rs:844-856 | The verifying form is the plain form whose result must be true and is taken off. |
| `ScriptRules.SignedIff` | src/script/engine.rs:815-842 | Signatures fit the keys exactly if each, none of them empty, verifies under a key of its own, in order, over the hash its last byte asks for. |
| `ScriptRules.CutInOrder` | src/script/engine.rs:807-813 | The signatures are cut out of the signed script one after the other, empty ones passed over. |
| `ScriptRules.SeparatedRun` | src/script/engine.rs:591-594 | After a code separator only the code behind it is signed. |
| `ScriptRules.IfRun` | src/script/engine.rs:423-432 | A conditional takes the top item and continues in its first part for a true item under OP_IF or a false one under OP_NOTIF, and otherwise behind OP_ELSE, with the first part only counted. |
| `ScriptRules.ElseRun` | src/script/engine.rs:677-688 | At the end of a part that was executed the other part is only counted, and the run continues outside the conditional. |
| `ScriptRules.SkipRun` | src/script/engine.rs:145-187 | A balanced branch that is not executed, with any nesting, changes nothing but the operation count. |
| `ScriptRules.RunLimits` | src/script/engine.rs:112-210 | A run that succeeds has no disabled instruction, executed or not, at most 201 operations, and at most 1000 items. |
| `ScriptRules.ReservedFails` | src/script/engine.rs:147-191 | A reserved opcode fails exactly where it is executed. |
| `ScriptRules.TruthyNumber` | src/script/engine.rs:860-939 | An item of up to four bytes is true exactly if it is not zero as a number; negative zero is false. |
| `ScriptRules.SmallNumber` | src/script/engine.rs:217-256 | The small-number opcodes push the numbers -1 to 16. |
| `ScriptNumbers.NumberRoundTrip` | src/script/engine.rs:882-939 | Decoding an encoded number gives it back exactly if it has less than 32 bits, and otherwise fails. |
| `ScriptNumbers.EncodeScriptNumber` | src/script/engine.rs:882-913 | The byte loop and the sign byte give the specified encoding. |

## Left out

- Sockets, message handlers, DNS, timers and channels; the asynchronous order of notifications. A reorganization and
  the matching change of the header chain reach the download window as one event.
- redb, flat files and fsync: maps with atomic updates. Catch-up of the chain state from disk at start.
- Reloading headers from disk, and persistence of batches, tips and forks.
- SHA-256, RIPEMD-160, scrypt, ECDSA and DER parsing; `find_and_delete`; the opcodes that touch only the two stacks.
  They are arbitrary functions.
- Rounding of floating-point numbers: the PID controller of CIP04 is an arbitrary integer not below -2^43, a bound proved
  in exact arithmetic with a wide margin, and fee rates are exact fractions.
- The sum of chain work is an unbounded integer; the program uses 256 bits.
- Block weight, the median-time and timestamp checks, BIP 34 and the legacy signature-operation limits.
- Payability of the entries that stay in the pool across a reorganization: the program does not look again at entries that
  spent coins of disconnected blocks.
- Strike counters and peer scoring: which requests are stale and which peers are struck out are parameters.
- Statistics, logging, the user interface, the command line and the remaining wire codecs.
- HeaderStoreClass.HeaderStore.SwitchActiveChain: the invariant is promised only if the old tip had no stored child, because the program adds it to the tips unconditionally.
- MempoolClass.Mempool.ReaddDisconnectedTxs: the count does not saturate at 32 bits.
