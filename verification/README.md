# A verified model of the headers-only chain

This project models the consensus core of Unicity's headers-only node and the two pieces of wire protocol that
feed it, and proves what they promise:

- the **chainstate**: the block tree, the active chain, the candidate tips, failure marking, notifications and the
  orphan pool, with the operations accept, offer, activate, invalidate, add orphan and evict;
- the **fast ancestry structures** next to the naive walk along `prev`: skip pointers, the early-exit active chain,
  forks, the binary search by time, exponential locators;
- **big integers and difficulty**: 32-bit limbs with addition, subtraction, shifts, multiplication and long division,
  the compact format, block proofs, ASERT and median-time-past;
- the **GETHEADERS/HEADERS exchange** between two nodes;
- the **wire codec and stream framing**;
- **saving and loading** the tree, with records in place of JSON.

## Layout

| layer | modules |
|---|---|
| values, folds | `Types`, `Steps`, `Protocol` |
| numbers | `Bits`, `BigPowers`, `Limbs`, `LimbShifts`, `LimbMul`, `LimbDivision`, `Compact`, `CompactLimbs`, `Asert`, `CubicLaws`, `FactorLaws`, `AsertLimbs` |
| the tree | `BlockTree`, `SkipCost`, `Ancestry`, `ActiveChain`, `Locator`, `MedianTime`, `BlockStore`, `Loader` |
| rules | `Consensus`, `SharedTrees` |
| chainstate as values | `CandidateTips`, `ConsensusState`, `ChainRuns`, `RunTheorems`, `TipChoice`, `CandidateRuns`, `OrphanPool`, `PoolDrain`, `PoolTheorems` |
| chainstate as a class | `Activation`, `Invalidation`, `NodeState` |
| header exchange | `HeaderServe`, `HeaderSync`, `SyncTheorems`, `Batches`, `HeaderReceiver` |
| wire | `Formats`, `Codec`, `MessageIO`, `Framing`, `Streams`, `Delivery` |
| concrete inputs | `ExampleNetwork`, `Witnesses` |

Code that the source writes as updates in place is imperative here too: classes with their fields, arrays of limbs,
loops with invariants. Each method is proved against a function of the old state, and the theorems are about those
functions, over all inputs and all runs. The header hash and the RandomX check are parameters (`Params.hash`,
`commitmentOk`, `fullOk`), and so are the clock (`now`), the payload checksum (`Link.checksum`) and what the peer
bookkeeping answers (`ibd`, `knownInvalid`, `mayDownload`). A block pointer is the hash of the block it points to.

## Findings

Four properties one would want are false of the code. Each has a concrete input and what does hold instead: for the
first three the exact condition, for the last the bound.

| property | where it fails | when it holds |
|---|---|---|
| after ProcessNewBlockHeader the tip has maximal work (src/chain/chainstate_manager.cpp:904: children taken out of the orphan pool are never offered as candidates) | `Witnesses.PooledChildHidesTheBestChain`, `Witnesses.PoolCanHideTheBestChain` | `PoolTheorems.PoolDecidesBest`: exactly when no pooled header comes along with the new one, or no chain of pooled headers on top of it beats the tip |
| a node catches up with an honest peer that is ahead (src/network/header_sync_manager.cpp:339-399: a low-work batch is skipped and, when it was full, the same request is sent again) | `Witnesses.LowWorkPeerIsNeverFollowed`, `Witnesses.LowWorkPeerExists` | `SyncTheorems.SyncCompletesIff`: exactly when the first answer ends at or above the minimum chain work |
| a loaded tree is one that AddToBlockIndex could have built (src/chain/block_manager.cpp:451: the stored work is taken as it is) | `Witnesses.WrongWorkIsLoaded` | `Loader.LoadedIsTree`: exactly when every stored work is the parent's plus the block's own proof |
| GetAncestor takes O(log n) turns (src/chain/block_index.cpp:39) | `SkipCost.NotLogarithmic`: from height 2^k - 1 to height 2 at least (k^2 + 5k - 10) / 4 turns | `SkipCost.WalkIsShort`: never more than k^2 + 5k from a height below 2^k |

Where code and documentation disagree the model follows the code: the comment in include/chain/chain.hpp on the
spacing of locator entries differs from the loop in src/chain/chain.cpp:55-86, the comment on GetSkipHeight
(src/chain/block_index.cpp:24-27) lets height 8 skip to 4 where the code gives 0, and GetNextWorkRequired measures time
from the anchor's own timestamp (src/chain/pow.cpp:184), not from its parent's.

## Model

| member | source | states |
|---|---|---|
| `RunTheorems.BestChainInRuns` | src/chain/chainstate_manager.cpp:184-298 | after every call of every run of ProcessNewBlockHeader and InvalidateBlock-then-activate from Initialize, with an empty pool and policy and expiry off, the tip has maximal work among all blocks that have not failed |
| `RunTheorems.NodesConverge` | src/chain/chainstate_manager.cpp:184-210 | two nodes that accepted the same headers in any orders end with tips of equal work, and with the same tip when only one block has that work |
| `RunTheorems.FailureClosureInRuns` | src/chain/chainstate_manager.cpp:1232-1256 | in every run from Initialize each descendant of a failed block is failed and no active block is |
| `RunTheorems.NotificationsReplayInRuns` | src/chain/chainstate_manager.cpp:364-458 | in every run a strict listener that pops and pushes on the notifications holds exactly the active chain |
| `RunTheorems.BuriedBlocksStay` | src/chain/chainstate_manager.cpp:322-362 | on regtest a block once d deep stays active in every later state of any run without InvalidateBlock |
| `RunTheorems.StepKeepsInv` | src/chain/chainstate_manager.cpp:45-182 | every public operation keeps the consensus invariant |
| `RunTheorems.CallKeepsBest` | src/chain/chainstate_manager.cpp:184-298 | one call keeps the tip at maximal work |
| `RunTheorems.SharedBlocksAgree` | src/chain/block_manager.cpp:126-213 | two trees agree on header, height, work and parent of every block they share |
| `RunTheorems.NoBlockFromTheFuture` | src/chain/validation.cpp:60-65 | every block a run adds was added by one of its calls, with a time at most two hours ahead of that call's clock |
| `PoolTheorems.AddedInTime` | src/chain/validation.cpp:60-65 | the same for all that comes in with a header, out of the orphan pool or not |
| `ChainRuns.ActivateShape` | src/chain/chainstate_manager.cpp:211-298 | an activation changes only chain and candidates; it stays silently or moves to one viable candidate with more work that policy and expiry admit |
| `ChainRuns.NoBetterCandidateRemains` | src/chain/chainstate_manager.cpp:211-298 | when activation succeeds, no remaining candidate beats the tip |
| `ChainRuns.ReorgIsBounded` | src/chain/chainstate_manager.cpp:322-362 | with policy depth d an activation disconnects fewer than d blocks |
| `ChainRuns.ActivateReplays` | src/chain/chainstate_manager.cpp:364-458 | the events of an activation replay from the old chain to the new one |
| `ChainRuns.ActivateBest` | src/chain/chainstate_manager.cpp:211-298 | from a state whose better blocks are covered by candidates, activation ends at a tip of maximal work |
| `TipChoice.MovesExactlyTo` | src/chain/chainstate_manager.cpp:211-298 | activation moves to c if and only if c is a viable candidate with more work than the tip, within expiry, whose fork is less than the policy depth below the tip, and every candidate in front of it (more work, then height, then smaller hash) is refused by the policy alone |
| `TipChoice.FailsExactlyOnExpiry` | src/chain/chainstate_manager.cpp:236-251 | activation fails if and only if the first candidate that the policy does not skip is beyond expiry |
| `TipChoice.ShallowContendersOutdone` | src/chain/chainstate_manager.cpp:322-362 | the policy refuses no more than it must: a viable candidate whose fork is less than d deep is never left with more work than the tip |
| `TipChoice.NewTipIsFirst` | src/chain/chain_selector.cpp:13-52 | with policy and expiry off a new tip has maximal work among the viable candidates, then maximal height, then the smallest hash |
| `TipChoice.CandidatesAfterMove` | src/chain/chain_selector.cpp:129-180 | when the tip moves, exactly the other viable leaves with as much work stay candidates, save those the policy skipped |
| `CandidateRuns.RivalsAreCandidates` | src/chain/chain_selector.cpp:54-180 | after every call of every run, each leaf that has not failed, with at least the tip's work, is a candidate or the tip |
| `CandidateRuns.InvalidateExactly` | src/chain/chainstate_manager.cpp:1113-1290 | exactly the block and its descendants become failed, the chain is cut just below it if it was active, and only unknown blocks and genesis are refused |
| `ChainRuns.AcceptThenTryAddKeepsCover` | src/chain/chain_selector.cpp:54-127 | a new block accepted and offered leaves every better block covered |
| `ChainRuns.InvalidateCovers` | src/chain/chainstate_manager.cpp:1113-1290 | after InvalidateBlock every block that beats the cut tip is covered by a candidate |
| `ChainRuns.InvalidateKeepsInv` | src/chain/chainstate_manager.cpp:1113-1290 | InvalidateBlock keeps the invariant: failure closure, sound active chain, exact failed set |
| `ChainRuns.InvalidateReplays` | src/chain/chainstate_manager.cpp:1139-1231 | the disconnects of InvalidateBlock replay to the cut chain |
| `ConsensusState.AddKeepsInv` | src/chain/chainstate_manager.cpp:45-182 | indexing a header that passed the checks keeps the invariant |
| `ConsensusState.AcceptableMeans` | src/chain/chainstate_manager.cpp:45-182 | a header is accepted anew if and only if its hash is new, its parent known and not failed, both proof-of-work checks pass, the bits are the expected ones, median time past < time <= now + 7200, and version >= 1 |
| `ConsensusState.SpecialReasons` | src/chain/chainstate_manager.cpp:54-160 | exactly when the reason is a missing parent, a duplicate or too little chainwork |
| `ConsensusState.NoActiveBlockFailed` | src/chain/chainstate_manager.cpp:300-320 | no block of the active chain is failed |
| `ConsensusState.ReplaySwitch` | src/chain/chainstate_manager.cpp:364-458 | a listener that follows the events of a switch ends with exactly the new chain |
| `PoolTheorems.PoolDecidesBest` | src/chain/chainstate_manager.cpp:848-917 | after a new header the tip is best if and only if no pooled header came along, or no chain of pooled headers on top beats the tip; read off the state before the call |
| `PoolTheorems.ProcessDecidesBest` | src/chain/chainstate_manager.cpp:184-210 | the same for every accepted header, known or new |
| `PoolTheorems.EmptyPoolKeepsBest` | src/chain/chainstate_manager.cpp:848-917 | with an empty pool the condition always holds |
| `PoolTheorems.ChainTo` | src/chain/chainstate_manager.cpp:848-917 | every header the drain adds ends a chain of pooled headers on top of the new block |
| `PoolTheorems.ChainArrives` | src/chain/chainstate_manager.cpp:848-917 | every chain of pooled headers that pass is added by the drain |
| `PoolTheorems.DrainIsRun` | src/chain/chainstate_manager.cpp:848-917 | what the drain adds is a run of single accepts, so every run theorem covers it |
| `PoolTheorems.DrainedBlocksAreNotOffered` | src/chain/chain_selector.cpp:54-127 | when a child is drained the new block is no leaf and the activation stays where it is |
| `PoolTheorems.EmptyPoolIsProcessHeader` | src/chain/chainstate_manager.cpp:184-210 | with an empty pool the class performs the call of the best-chain runs |
| `OrphanPool.RemoveKeepsPool` | src/chain/chainstate_manager.cpp:873-896 | removing an entry and decrementing its peer keeps the counts exact and the limits |
| `OrphanPool.InsertKeepsPool` | src/chain/chainstate_manager.cpp:958-972 | adding an entry within the limits and incrementing its peer keeps them |
| `OrphanPool.DrainOfNewBlock` | src/chain/chainstate_manager.cpp:848-917 | draining the children of a new block removes exactly the entries whose parent became indexed |
| `OrphanPool.EvictionMeans` | src/chain/chainstate_manager.cpp:974-1044 | nothing expired stays; what goes has expired, or the pool was full and it alone goes, received first and of those with the smallest hash |
| `NodeState.ChainstateManager.Initialize` | src/chain/chainstate_manager.cpp:648-670 | the state after Initialize, and that it is valid |
| `NodeState.ChainstateManager.AcceptBlockHeader` | src/chain/chainstate_manager.cpp:45-182 | the verdict on the index as it was; the pool afterwards; that the headers added are the new one and pooled ones, each accepted in turn |
| `NodeState.ChainstateManager.CheckHeader` | src/chain/chainstate_manager.cpp:45-140 | the checks in order give the reject reason of the rules |
| `NodeState.ChainstateManager.ProcessNewBlockHeader` | src/chain/chainstate_manager.cpp:184-210 | accept, offer, activate; with a best tip before, best after if and only if the pool was harmless; with an empty pool the function of the best-chain runs |
| `NodeState.ChainstateManager.ActivateBestChain` | src/chain/chainstate_manager.cpp:211-298 | performs the activation function, and delivers exactly its events |
| `NodeState.ChainstateManager.ActivateBestChainStep` | src/chain/chainstate_manager.cpp:300-474 | returns only OK or POLICY_REFUSED: stays without more work, refuses exactly when the reorg is at least the policy depth deep, else moves; a refused attempt emits nothing |
| `NodeState.ChainstateManager.InvalidateBlock` | src/chain/chainstate_manager.cpp:1113-1312 | performs the invalidation function, and delivers exactly its events |
| `NodeState.ChainstateManager.TryAddBlockIndexCandidate` | src/chain/chainstate_manager.cpp:604-607 | the candidate set afterwards |
| `NodeState.ChainstateManager.ProcessOrphanHeaders` | src/chain/chainstate_manager.cpp:848-917 | the recursive drain terminates; what leaves the pool, what is added, and the verdicts |
| `NodeState.ChainstateManager.TryAddOrphanHeader` | src/chain/chainstate_manager.cpp:919-972 | known, refused for a peer at its limit, or added after making room |
| `NodeState.ChainstateManager.AddOrphanHeader` | src/chain/chainstate_manager.cpp:564-567 | the same, and every pooled header still waits for its parent |
| `NodeState.ChainstateManager.EvictOrphanHeaders` | src/chain/chainstate_manager.cpp:974-1044 | all expired entries go, or the oldest of a full pool; the count is exact and not zero for a full pool |
| `Activation.DisconnectTip` | src/chain/chainstate_manager.cpp:569-602 | the chain loses its tip and the event is queued |
| `Activation.ConnectTip` | src/chain/chainstate_manager.cpp:516-562 | the chain gains the block and the event is queued |
| `Activation.Reroute` | src/chain/chainstate_manager.cpp:364-458 | disconnecting to the fork and connecting up gives exactly the path of the new tip |
| `Invalidation.MarkSubtree` | src/chain/chainstate_manager.cpp:1232-1256 | the block is marked failed, its descendants are marked through their ancestor, nothing else changes |
| `Invalidation.DisconnectBelow` | src/chain/chainstate_manager.cpp:1139-1231 | the chain is cut below the block and the competing forks are offered |
| `Invalidation.AddViableLeaves` | src/chain/chainstate_manager.cpp:1258-1286 | the viable leaves with at least the tip's work are offered |
| `CandidateTips.BetterIsStrictTotalOrder` | src/chain/chain_selector.cpp:13-27 | the comparator is a strict total order |
| `CandidateTips.ChainSelector.FindMostWorkChain` | src/chain/chain_selector.cpp:29-52 | the best viable candidate; exactly the failed ones in front of it are erased |
| `CandidateTips.ChainSelector.TryAddBlockIndexCandidate` | src/chain/chain_selector.cpp:54-127 | a viable leaf replaces its parent |
| `CandidateTips.ChainSelector.PruneBlockIndexCandidates` | src/chain/chain_selector.cpp:129-212 | exactly the candidates that survive the five rules stay |
| `BlockStore.BlockManager.AddToBlockIndex` | src/chain/block_manager.cpp:126-213 | known, refused or indexed, and the record it gets |
| `BlockStore.BlockManager.Initialize` | src/chain/block_manager.cpp:76-110 | a genesis that names a parent is refused; else index and chain hold it alone |
| `BlockTree.SkipHeight` | src/chain/block_index.cpp:16-32 | the skip height of a positive height is below it |
| `BlockTree.TreeSkipSound` | src/chain/block_index.cpp:34-38 | every skip pointer names the ancestor at the skip height |
| `BlockTree.WorkMonotone` | src/chain/block_manager.cpp:173-206 | work and maximal time do not decrease from an ancestor to a descendant |
| `Ancestry.GetAncestor` | src/chain/block_index.cpp:40-65 | the mixed walk ends at the block the parent walk would reach, also with skip pointers unset; with all of them set its turns are `SkipCost.Steps` of the two heights |
| `Ancestry.TurnsAreSteps` | src/chain/block_index.cpp:40-65 | with every skip pointer set the number of turns depends on the two heights alone |
| `Ancestry.TreeWalkIsShort` | src/chain/block_manager.cpp:205-209 | in a tree built by AddToBlockIndex a lookup from a height below 2^k takes at most k^2 + 5k turns |
| `SkipCost.WalkIsShort` | src/chain/block_index.cpp:39-65 | at most k^2 + 5k turns from any height below 2^k to any target |
| `SkipCost.WalkCanBeLong` | src/chain/block_index.cpp:39-65 | from 2^k - 1 to height 2 at least (k^2 + 5k - 10) / 4 turns, so the quadratic bound is tight up to a factor of four |
| `SkipCost.NotLogarithmic` | src/chain/block_index.cpp:39 | for every constant a there is a lookup that takes more than a turns per bit of the height |
| `SkipCost.DropIsInvert` | src/chain/block_index.cpp:16 | n & (n - 1) clears the lowest binary digit that is set |
| `Ancestry.LastCommonAncestor` | src/chain/block_index.cpp:134-160 | the deepest common ancestor by the naive walk, None without a common root |
| `Ancestry.ForkIsDeepest` | src/chain/block_index.cpp:134-160 | every common ancestor lies at or below the fork |
| `ActiveChain.CChain.SetTip` | src/chain/chain.cpp:15-53 | although it stops at the first match, every slot holds the tip's ancestor |
| `ActiveChain.CChain.ContainsIsAncestor` | include/chain/chain.hpp:46-54 | membership by slot is exactly being an ancestor of the tip |
| `ActiveChain.CChain.FindFork` | src/chain/chain.cpp:96-127 | equals LastCommonAncestor with the tip, in the None case too |
| `ActiveChain.CChain.FindEarliestAtLeast` | src/chain/chain.cpp:129-141 | the first block with maximal time and height at or above the bounds, None when there is none |
| `Locator.LocatorEntries` | src/chain/chain.cpp:55-86 | the ancestors of the start at the locator heights |
| `Locator.HeightsDescend` | src/chain/chain.cpp:55-86 | the heights are strictly descending and end at genesis |
| `Locator.LocatorFits` | src/network/message.cpp:610-614 | at most 41 entries below height 2^30, within the receiver's limit of 101 |
| `Locator.HeightAt` | src/chain/chain.cpp:55-86 | entry i lies i below the start for i < 10, and 9 + 2^(i-10) below it from there on, never below genesis |
| `Locator.LocatorGap` | src/chain/chain.cpp:55-86 | the highest entry at or below a level misses it by at most the level's distance from the start |
| `MedianTime.GetMedianTimePast` | include/chain/block_index.hpp:179-190 | the median of the last eleven times |
| `MedianTime.MedianByCounting` | include/chain/block_index.hpp:179-190 | the median is at least v exactly when more than half of the times are |
| `MedianTime.MedianMonotone` | src/chain/validation.cpp:46-57 | the median never decreases along an accepted chain |
| `MedianTime.LaterThanBlockOne` | src/chain/validation.cpp:46-57 | every block above height one is strictly later than block one |
| `MedianTime.AnchorTimeNeverWraps` | src/chain/pow.cpp:184-185 | the 32-bit subtraction that feeds ASERT never wraps for an anchor at height one |
| `Consensus.GetNextWorkRequired` | src/chain/pow.cpp:138-201 | the required bits, with the anchor found by the skip list |
| `Consensus.ExpectedBitsUsable` | src/chain/pow.cpp:138-201 | they decode to a target in [1, powLimit] with positive proof, for every index |
| `Consensus.ExpectedBitsIsExponential` | src/chain/pow.cpp:138-201 | on an accepted chain they are the compact form of the clamped exponential, end to end |
| `Consensus.AsertInputsReachable` | src/chain/pow.cpp:176-197 | the arguments passed to CalculateASERT are reachable ones |
| `Consensus.ContextualCheckBlockHeader` | src/chain/validation.cpp:32-75 | the contextual checks in order give the reject reason; what passes is `ConsensusState.AcceptableMeans` |
| `Consensus.WorkStrictlyIncreases` | src/chain/block_manager.cpp:173-178 | work strictly increases from parent to child on an accepted chain |
| `Consensus.CalculateHeadersWork` | src/chain/validation.cpp:108-146 | the sum of the headers' proofs |
| `Consensus.BatchWork` | src/chain/validation.cpp:108-146 | start work plus batch work is the chainwork AddToBlockIndex gives the last header |
| `Consensus.CheckHeadersAreContinuous` | src/chain/validation.cpp:164-181 | true exactly when each header names the one before |
| `SharedTrees.AcceptableElsewhere` | src/chain/validation.cpp:32-75 | a block that passed one node's checks passes another's that has its parent |
| `Compact.OverflowIsExact` | src/util/arith_uint256.cpp:175-192 | the overflow flag is set exactly when the magnitude needs more than 256 bits, for every size |
| `Compact.RoundTripIsFloor` | src/util/arith_uint256.cpp:175-216 | decoding an encoding gives the greatest representable value not above the number |
| `Compact.CompactKeepsRange` | src/util/arith_uint256.cpp:175-216 | encoding and decoding keeps [1, limit] and sets no flag |
| `Compact.NoTargetIsMax` | src/chain/block_index.cpp:121-125 | no nBits decodes to 2^256-1, so no divisor is zero |
| `Compact.BlockProofIsFloor` | src/chain/block_index.cpp:112-132 | the block proof is floor(2^256 / (target + 1)) and at least one for every usable nBits |
| `Asert.AsertIsClampedExponential` | src/chain/pow.cpp:40-129 | on every reachable input the code is clamp(floor(ref * factor * 2^shifts / 65536), 1, powLimit) |
| `Asert.FactorBounds` | src/chain/pow.cpp:84-90 | the cubic fits in 64 bits, the factor lies in [65536, 131071] and grows |
| `FactorLaws.FactorSquares` | src/chain/pow.cpp:84-94 | the factor of 2f is the square of the factor of f, within a thousandth, for every f below a half |
| `FactorLaws.FactorComplements` | src/chain/pow.cpp:84-94 | the factors of two fractions that make up a half-life multiply to two, within a thousandth, for every fraction |
| `FactorLaws.FactorEnds` | src/chain/pow.cpp:84-94 | the factor starts at 1 and ends at 131071 / 65536, so nothing jumps at a whole half-life |
| `Asert.ExponentIsTruncated` | src/chain/pow.cpp:68-82 | the exponent is the deviation in half-lives in units of 1/65536, truncated toward zero |
| `Asert.ExponentRange` | src/chain/pow.cpp:58-75 | product, base and exponent stay inside their signed widths |
| `Asert.AsertInRange` | src/chain/pow.cpp:113-129 | on every input the result is in [1, powLimit] |
| `Asert.AsertMonotone` | src/chain/pow.cpp:40-129 | the target does not decrease with time and does not increase with height |
| `Asert.WholeHalfLives` | src/chain/pow.cpp:40-129 | a deviation of exactly k half-lives scales by exactly 2^k, floored and clamped |
| `AsertLimbs.CalculateASERT` | src/chain/pow.cpp:40-129 | the limb-level computation is that function |
| `Limbs.Add` | include/util/arith_uint256.hpp:116-126 | the sum modulo the width, also of an array with itself |
| `Limbs.Increment` | include/util/arith_uint256.hpp:154-161 | plus one modulo the width |
| `Limbs.Complement` | include/util/arith_uint256.hpp:50-56 | the distance to all ones |
| `Limbs.Negate` | include/util/arith_uint256.hpp:58-65 | two's complement |
| `Limbs.Subtract` | include/util/arith_uint256.hpp:128-132 | the difference, wrapping around |
| `Limbs.CompareTo` | src/util/arith_uint256.cpp:96-105 | the order of the values |
| `LimbShifts.ShiftLeft` | src/util/arith_uint256.cpp:13-28 | the shifted value modulo the width, for every shift |
| `LimbShifts.ShiftRight` | src/util/arith_uint256.cpp:30-44 | the value divided by 2^shift, for every shift |
| `LimbMul.Multiply32` | src/util/arith_uint256.cpp:46-55 | the product with a limb modulo the width; no column leaves 64 bits |
| `LimbMul.Multiply` | src/util/arith_uint256.cpp:57-70 | the product modulo the width, also of an array with itself |
| `LimbDivision.Divide` | src/util/arith_uint256.cpp:72-94 | the exact floor quotient for every non-zero divisor, failure exactly for zero |
| `LimbDivision.BitCount` | src/util/arith_uint256.cpp:157-168 | the position of the highest set bit plus one |
| `LimbDivision.EqualTo` | src/util/arith_uint256.cpp:107-117 | equality with a 64-bit number |
| `CompactLimbs.SetCompact` | src/util/arith_uint256.cpp:175-192 | the limb-level decoder is the function of the compact lemmas |
| `CompactLimbs.GetCompact` | src/util/arith_uint256.cpp:194-216 | so is the encoder |
| `CompactLimbs.GetBlockProof` | src/chain/block_index.cpp:112-132 | so is the proof |
| `HeaderServe.HandleGetHeadersMessage` | src/network/header_sync_manager.cpp:537-640 | the reply to any locator, stop hash and permission |
| `HeaderServe.ServedIsRun` | src/network/header_sync_manager.cpp:605-635 | the reply is the run up to the stop hash, a full message or the tip, whichever comes first |
| `HeaderServe.LocatorFindsFork` | src/network/header_sync_manager.cpp:570-585 | the fork served is the highest locator entry at or below the true common ancestor L, at most height(S)-height(L) below it |
| `HeaderServe.ReplyConnects` | src/network/header_sync_manager.cpp:570-635 | every reply connects to an ancestor of the locator's start, is continuous and within the limit |
| `HeaderSync.BatchKeepsBest` | src/network/header_sync_manager.cpp:404-507 | a whole batch with one activation at its end keeps the tip at maximal work |
| `HeaderSync.LowWorkExactly` | src/network/header_sync_manager.cpp:339-358 | a batch is ignored if and only if it does not end on the active chain, its start is known, and it ends below the minimum work or by more than the buffer below the tip |
| `HeaderSync.RunLeads` | src/network/header_sync_manager.cpp:404-497 | the accept loop takes a whole run of an honest peer's headers |
| `HeaderSync.ActivateFollows` | src/network/header_sync_manager.cpp:499-507 | the activation then moves to the last of them |
| `SyncTheorems.RoundAdvances` | src/network/header_sync_manager.cpp:202-535 | one round advances by min(1999, n), by min(2000, n) from genesis, and asks for more exactly after a full message |
| `SyncTheorems.SyncCompletes` | src/network/header_sync_manager.cpp:202-685 | n / 1999 + 1 rounds end with the peer's chain, and no more is requested |
| `SyncTheorems.LowWorkPeerStalls` | src/network/header_sync_manager.cpp:339-399 | where the first answer ends below the minimum work nothing ever changes, and a full answer is asked for again forever |
| `SyncTheorems.SyncCompletesIff` | src/network/header_sync_manager.cpp:202-685 | the exchange completes if and only if the first answer passes the low-work gate |
| `SyncTheorems.LowWorkIffBelowMinimum` | src/chain/validation.cpp:87-106 | the anti-DoS rule refuses an honest batch exactly when it ends below the minimum chain work |
| `HeaderReceiver.HeaderSyncManager.HandleHeadersMessage` | src/network/header_sync_manager.cpp:202-535 | all branches: what is ignored, refused or handled; with an empty pool before, it succeeds exactly when `Batches.Succeeds`, and then every header that was looked at is indexed, pooled or known invalid; a failed message clears the sync peer; a full batch asks for more |
| `HeaderReceiver.HeaderSyncManager.GetLocatorFromPrev` | src/network/header_sync_manager.cpp:669-685 | the locator of the tip's parent, at genesis of the tip |
| `HeaderReceiver.AcceptHeaders` | src/network/header_sync_manager.cpp:404-497 | the accept loop: the accepted prefix, exactly the orphans after it pooled, and success exactly when no other rejected header is held against the peer and at most 50 orphans come along |
| `Batches.RestIsRejected` | src/network/header_sync_manager.cpp:405-497 | once a header of a continuous batch is rejected, all that follow it are |
| `Batches.NothingIsLost` | src/network/header_sync_manager.cpp:405-497 | of a batch the loop ran through, every header is indexed, an orphan, or one the peer was blamed for before |
| `Batches.UnconnectedBatch` | src/network/header_sync_manager.cpp:279-308 | a well-formed batch with an unknown start is pooled whole, and fails exactly when it holds more than 50 headers or activation fails |
| `Codec.VarIntGood` | src/network/message.cpp:13-75 | every 64-bit value has exactly one accepted encoding |
| `Formats.ByteOrder` | src/network/message.cpp:79-152 | the least significant byte comes first in little-endian fields and last in big-endian ones |
| `Codec.HeaderGood` | src/chain/block.cpp:35-101 | parsing undoes printing of a block header, and only printed headers parse |
| `Codec.MessageRoundTrip` | src/network/message.cpp:440-686 | every message within its limits is read back as it was sent |
| `Codec.OneEncoding` | src/network/message.cpp:440-686 | whatever is accepted starts with the one encoding of the message it is read as |
| `MessageIO.SerializeMessage` | src/network/message.cpp:440-652 | the serializer writes that encoding, for all nine messages |
| `MessageIO.DeserializeMessage` | src/network/message.cpp:409-686 | the deserializer with its sticky error reads exactly what the formats accept |
| `MessageIO.SerializeFixed` | src/chain/block.cpp:35-62 | the 100 bytes filled field by field are the header's encoding |
| `MessageIO.DeserializeHeader` | src/chain/block.cpp:70-101 | the fields at their offsets, for exactly 100 bytes |
| `MessageIO.MessageDeserializer.ReadVarInt` | src/network/message.cpp:210-230 | reads one canonical value up to MAX_SIZE, or sets the error |
| `MessageIO.MessageDeserializer.ReadBytes` | src/network/message.cpp:246-255 | reads in bounds, or sets the error |
| `Framing.CheckCommand` | src/network/message.cpp:370-394 | printable, terminated and zero-padded, exactly |
| `Framing.HeaderRoundTrip` | src/network/message.cpp:337-407 | the message header is read back as it was written |
| `Framing.ReceiveBuffer.OnTransportReceive` | src/network/peer.cpp:323-383 | in every state: dropped when it would flood, else appended and parsed; the buffer stays within twice the flood limit |
| `Framing.ReceiveBuffer.ProcessReceivedData` | src/network/peer.cpp:587-657 | delivers exactly the frames of the pending bytes; which those are is `Delivery.DeliveredWasSent` |
| `Delivery.ParseIsSound` | src/network/peer.cpp:587-657 | every frame taken off a stream has the right magic, command, length and checksum, and the frames followed by what is left are the stream |
| `Delivery.BadExactly` | src/network/peer.cpp:593-648 | a stream is bad exactly when what is left starts with a whole header that no frame agreeing with those bytes can have |
| `Delivery.BadIsHopeless` | src/network/peer.cpp:593-648 | what is left of a bad stream can be continued to no good frame |
| `Delivery.OnlyGoodFrames` | src/network/peer.cpp:323-383 | whatever the chunks, only good frames are delivered |
| `Delivery.DeliveredWasSent` | src/network/peer.cpp:323-383 | the delivered frames stand at the front of the stream, and the peer is disconnected exactly when the bytes after them hold a header that no frame can have |
| `Delivery.WaitsForTheImpossible` | src/network/peer.cpp:618-628 | a header may announce a payload whose checksum no bytes have, and the receiver still waits |
| `Streams.ChunksDoNotMatter` | src/network/peer.cpp:323-383 | for every stream in chunks of at most 256 KiB, the frames delivered and the disconnect are those of the whole stream in one piece |
| `Streams.SameStreamSameFrames` | src/network/peer.cpp:323-383 | two ways to cut a stream deliver the same frames and disconnect alike |
| `Streams.FloodsOnlyAfterBad` | include/network/real_transport.hpp:110 | the flood check trips only after a bad frame |
| `Streams.MessagesArrive` | src/network/peer.cpp:587-720 | messages within their limits, sent in sequence and cut anyhow, arrive in order, one frame each, and the command looked up from each frame's header parses its payload to the message |
| `Streams.CommandIsFound` | src/network/message.cpp:409-430 | every command is looked up under the name it is sent with |
| `Streams.MessageFits` | include/network/protocol.hpp:83-92 | every message within its limits fits in one frame, and only verack and getaddr are empty |
| `Loader.Load` | src/chain/block_manager.cpp:305-600 | succeeds exactly on loadable files, and builds the tree and the active chain the file describes |
| `Loader.Save` | src/chain/block_manager.cpp:215-303 | every block once, in height order, with tip and genesis |
| `Loader.SaveThenLoad` | src/chain/block_manager.cpp:215-600 | what Save wrote loads exactly when the tip has not failed and is at most a million high, and rebuilds the same tree |
| `Loader.LoadedIsTree` | src/chain/block_manager.cpp:449-600 | what is loaded has one root and sound skip pointers; it is a built tree if and only if the stored work is right |
| `Loader.LoadedUnique` | src/chain/block_manager.cpp:504-546 | the file determines the tree |
| `Loader.VerifyChainContinuity` | src/chain/block_manager.cpp:30-74 | true exactly for blocks at most a million high that descend from genesis |
| `Witnesses.PooledChildHidesTheBestChain` | src/chain/chainstate_manager.cpp:848-917 | with a child waiting in the pool, accepting its parent leaves a tip that is not best |
| `Witnesses.LowWorkPeerIsNeverFollowed` | src/network/header_sync_manager.cpp:339-399 | an honest peer one block ahead, below the minimum work, is never followed |
| `Witnesses.WrongWorkIsLoaded` | src/chain/block_manager.cpp:449-451 | a file with inflated work loads, and the tree is none AddToBlockIndex could have built |

## Left out

- Chainwork above 2^256: the sum of block proofs is a natural number here and does not wrap.
- Heights are natural numbers; the locator bound assumes heights below 2^30.
- ChainstateManager::Load: it marks a failing block without marking its descendants and is outside the runs.
- RandomX, SHA-256 and the header hash: uninterpreted functions and predicates.
- JSON text, file writes, missing or ill-typed JSON fields: Save and Load work on records.
- FactorLaws.FactorSquares: with FactorLaws.FactorComplements it states two laws of 65536 * 2^x up to a thousandth, not the error of 0.013 per cent against 2^x itself that the comment at src/chain/pow.cpp:86 gives.
- Batches.SoundHash: the exact outcome of a batch assumes that no two headers share a hash and none has the null hash.
- Sockets, timers, handshake, NAT, RPC, CLI and the application's life cycle.
- Mutexes and threads: the code serialises validation under one lock, and public calls are atomic steps here.
- Scores and bans of peers: HandleHeadersMessage takes what they answer as parameters and does not model their updates.
- IsInitialBlockDownload, the sync peer's selection and its stall timer.
- Notifications other than connect, disconnect and tip: SuspiciousReorg and NetworkExpired are not modelled.
- UpdateBestHeader, logging, ToString and floating-point display: not consensus state.
- The capacity of std::vector (reserve, shrink_to_fit) and the allocation in batches while parsing lists.
- The regtest miner, test hooks, address selection, time offsets and the LRU cache.
