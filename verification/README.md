# Verified models of the TRv1 chain

Dafny models of the consensus, storage, staking, validator, slashing, account, fee and mempool logic of the
TRv1 chain, with proofs. `dafny verify dfyconfig.toml` checks all of it.

The source updates its objects in place, so each is a class whose methods run the source's steps and loops, and
each method is tied to a step function on values (`OnPrevote`, `GetStep`, `Transfer`, `Unstake`, `ProcessOne`,
`NextFee`, `Add`, and so on). What the chain promises is proved about those functions, over every run.

| file | what it holds |
|---|---|
| `words.dfy`, `arith.dfy`, `map_sums.dfy` | machine words and little-endian bytes, division facts, sums over maps |
| `bft_types.dfy`, `vote_set.dfy` | votes and their signed bytes, vote tallies and quorums |
| `machine.dfy`, `machine_runs.dfy`, `machine_duties.dfy`, `proposer_rotation.dfy` | the consensus state machine, what it never does over a run, what it has to do, and whose turn it is |
| `agreement.dfy`, `disagreement.dfy` | N machines on an adversarial network, with the hypotheses of agreement and without them |
| `merkle.dfy` | the transaction Merkle root |
| `tiered_storage.dfy` | the LRU cache and the three storage tiers |
| `state_db.dfy` | accounts, transfers and blocks |
| `staking.dfy`, `validator_set.dfy`, `proposer.dfy`, `validator_manager.dfy`, `slashing.dfy` | stakes and delegations, rotation, proposer choice, the validator set, evidence and slashing |
| `fee_split.dfy`, `fee_market.dfy` | the fee split schedule and the base fee |
| `mempool.dfy` | the transaction pool |

## Main results

- Agreement (`Agreement.AgreementAcrossRounds`): with fewer than N/3 faulty validators no two honest machines
  commit different blocks at a height, over every schedule of messages and timeouts. The hypotheses are written
  out in `Deliverable`, `HonestValidRound` and `MachineRuns.Allowed`: (a) votes that verify come from the
  validator set, (b) an honest key signs only what its machine emitted, (c) the valid round a proposal claims had
  a prevote quorum for its hash, (d) a caller starts a height once and advances only after the machine's own
  commit; and the 32-bit round counter does not wrap. The code enforces neither (a) nor (c). Without (a) a quorum
  of outsiders commits any hash (`Disagreement.OutsidersCommit`); without (c) one faulty validator of four makes two
  honest machines commit different hashes (`Disagreement.ClaimBreaksAgreement`).
- Storage (`TieredStores.StorageIsAMap`): three tiers with eviction, promotion and archiving are one plain map.
- Duties (`MachineDuties.ProposalAnswered`): when a machine has to prevote a proposal, told by its own precommits.
- Rotation (`ValidatorSets.Rotate`, `ValidatorSets.SettledIsOptimal`, `ValidatorSets.RotationDetermined`): it ends,
  nothing beats the result, and there is only one.
- Locks (`Staking.StakeIsHeld`): a stake stays until its tier's day, whatever is called before.
- Proposers (`Proposers.ProportionalIff`): exactly proportional, if and only if the total power fits 64 bits.
- Conservation of stake, supply, slashed amounts and fees over every run, each with the exact condition under
  which the code keeps it, on what is known before the run: the opening supply (`StateDb.RunConservesIff`), the room
  for deposits (`Staking.ConservesUpToIff`), the slash ratios (`Slashing.KeepsWealthIff`) and the fee schedule
  (`FeeSplits.AlwaysConservesIff`). What a run does otherwise is accounted for exactly (`StateDb.RunDestroys`,
  `Staking.RunConservesIff`, `Slashing.ProcessAllMakes`, `FeeSplits.EpochConservesIff`).
- No replay (`StateDb.NoReplay`), from every state.

## Reading the source

- Arithmetic the source leaves unchecked wraps, as in a release build. Where that breaks a promise, the exact
  condition is part of the statement (`StepForward`, `ProposerRotatesIff`, `ValidateIsWholeIff`, `ProportionalIff`, `StakeConservesIff`).
- Signatures are ideal: a signature is its signer and the signed bytes. Hashes are function parameters.
- A hash map is walked in any order: loops take an arbitrary remaining key.
- The propose timeout is commented as a nil prevote, but the code only moves to the prevote step and sends
  nothing; the model follows the code.
- A transfer that overflows the recipient reports an error after the sender has been debited
  (`StateDb.FailureAtomicIff`); a stake that overflows the total reports an error with the entry already in
  (`Staking.StakeConservesIff`).
- The fee market is documented to move by at most 12.5% per block. The code does not cap the gas of a block, and
  always moves up by at least one unit. `FeeMarkets.RiseWithinIff` says exactly when the cap holds for one fee,
  `FeeMarkets.CapHoldsIff` for all fees up to twice the target, and `FeeMarkets.CapHoldsBeyondIff` and
  `FeeMarkets.CapHoldsAllIff` past it.

## Model

| member | source | states |
|---|---|---|
| `BftTypes.SignedVote` | consensus/bft/src/vote.rs:8-26 | a vote made with a key verifies under that key |
| `BftTypes.SignBytesParts` | consensus/bft/src/vote.rs:29-52 | where each field of a vote sits in the signed bytes |
| `BftTypes.SignBytesInjective` | consensus/bft/src/vote.rs:29-52 | equal signed bytes mean equal type, height, round and hash (nil included) |
| `BftTypes.TamperedVoteRejected` | consensus/bft/src/vote.rs:55-63 | a signature carried over to another vote verifies if and only if the vote is the same |
| `VoteSets.VoteSet.constructor` | consensus/bft/src/vote.rs:79-92 | an empty, authentic tally |
| `VoteSets.VoteSet.AddVote` | consensus/bft/src/vote.rs:96-112 | keeps the first authentic matching vote per key; reports an addition if and only if the tally grew by one; otherwise changes nothing |
| `VoteSets.HoldsFirstVotes` | consensus/bft/src/vote.rs:96-112 | after any sequence of votes an empty tally holds, for each key, exactly the first of them that counts |
| `VoteSets.VoteSet.IsQuorum` | consensus/bft/src/vote.rs:160-163 | strictly more than two thirds; what that means in absent validators is `QuorumWithAbsentIff` |
| `VoteSets.Tally.Threshold` | consensus/bft/src/vote.rs:160-163 | the least count that is a quorum: a count is one if and only if it reaches it |
| `VoteSets.QuorumWithAbsentIff` | consensus/bft/src/vote.rs:160-163 | the votes of all but some validators are a quorum if and only if fewer than a third are absent |
| `VoteSets.VoteSet.CountFor` | consensus/bft/src/vote.rs:116-120 | the counting loop finds exactly the number of supporters, whatever the map order |
| `VoteSets.VoteSet.HasQuorumFor` | consensus/bft/src/vote.rs:115-122 | true if and only if the supporters of the hash are a quorum |
| `VoteSets.VoteSet.HasQuorumForNil` | consensus/bft/src/vote.rs:125-132 | the same for nil |
| `VoteSets.VoteSet.HasTwoThirdsAny` | consensus/bft/src/vote.rs:151-153 | true if and only if all voters together are a quorum |
| `VoteSets.VoteSet.Counts` | consensus/bft/src/vote.rs:136-141 | the tally loop gives every hash its number of supporters |
| `VoteSets.VoteSet.QuorumBlock` | consensus/bft/src/vote.rs:135-148 | some hash with a quorum if there is one, none otherwise |
| `VoteSets.QuorumsIntersect` | consensus/bft/src/vote.rs:160-163 | two quorums of one validator set share more than a third of it |
| `VoteSets.QuorumUnique` | consensus/bft/src/vote.rs:115-148 | with fewer than two thresholds of voters (so always with at most `total_validators` of them) at most one value, nil included, has a quorum |
| `VoteSets.QuorumBlockExact` | consensus/bft/src/vote.rs:135-148 | under that bound `quorum_block` answers h if and only if `has_quorum_for(h)`, in any map order |
| `VoteSets.TooManyVotersSplit` | consensus/bft/src/vote.rs:96-148 | the bound is sharp: any two thresholds of keys can give two hashes a quorum, since membership is not checked |
| `Machines.BftStateMachine.constructor` | consensus/bft/src/state_machine.rs:36-58 | the initial state, with consistent tallies |
| `Machines.BftStateMachine.StartNewRound` | consensus/bft/src/state_machine.rs:61-77 | the object does what the `StartRound` step says, with fresh tallies |
| `Machines.BftStateMachine.HandleProposal` | consensus/bft/src/state_machine.rs:97-161 | the object does the `OnProposal` step, which `ProposalAnswered` pins by what the machine said before |
| `Machines.BftStateMachine.HandlePrevote` | consensus/bft/src/state_machine.rs:164-230 | the object does the `OnPrevote` step for a genuine answer of `quorum_block` |
| `Machines.BftStateMachine.DecidePrecommit` | consensus/bft/src/state_machine.rs:176-229 | the lock or nil decision once the prevote is counted |
| `Machines.BftStateMachine.HandlePrecommit` | consensus/bft/src/state_machine.rs:233-266 | the object does the `OnPrecommit` step for a genuine answer of `quorum_block` |
| `Machines.BftStateMachine.HandleTimeout` | consensus/bft/src/state_machine.rs:269-313 | the object does the `OnTimeout` step, for every timeout but the one on which an empty validator set is indexed |
| `Machines.BftStateMachine.AdvanceToHeight` | consensus/bft/src/state_machine.rs:321-329 | the object does the `AdvanceHeight` step, locks cleared |
| `MachineRuns.StepLock` | consensus/bft/src/state_machine.rs:97-329 | what one step may say and do to the lock: at most one vote or commit, at the current position, non-nil precommits equal the lock taken in that round, the lock otherwise kept until the height changes |
| `MachineRuns.StepForward` | consensus/bft/src/state_machine.rs:61-329 | (height, round, step) never goes back, if and only if the step is not the precommit timeout of the last 32-bit round |
| `MachineRuns.StepInv` | consensus/bft/src/state_machine.rs:61-329 | every step keeps the machine invariant: both lock fields set or neither, locked round ≤ valid round ≤ round, authentic tallies for the current position, stored blocks under their own hash |
| `MachineRuns.NewMachineInv` | consensus/bft/src/state_machine.rs:36-58 | the invariant holds at the start |
| `MachineRuns.RunOrdered` | consensus/bft/src/state_machine.rs:61-329 | over every run the votes and commits are strictly increasing in (height, round, phase) and nothing at a height follows its commit |
| `MachineRuns.SaidOnce` | consensus/bft/src/state_machine.rs:61-329 | at most one prevote and one precommit per (height, round), one commit per height, no vote after a commit until the height advances |
| `MachineRuns.LockWasPrecommitted` | consensus/bft/src/state_machine.rs:176-229 | whatever the machine is locked on, it precommitted in that very round |
| `MachineDuties.LockIsTold` | consensus/bft/src/state_machine.rs:97-230 | over every run from an unlocked machine the lock is exactly where its latest non-nil precommit of the height put it |
| `MachineDuties.ProposalAnswered` | consensus/bft/src/state_machine.rs:97-161 | over every run from an unlocked machine: a proposal for this round, in time and from the proposer in turn, gets exactly one prevote, for its hash unless the latest non-nil precommit of the height is for another hash and the proposal claims no valid round as late; any other proposal is ignored |
| `MachineDuties.PrevoteAnswered` | consensus/bft/src/state_machine.rs:164-230 | while prevoting: lock and precommit if some block has a prevote quorum, else a nil precommit if nil has one, else the prevote timeout if enough voted at all, else nothing |
| `MachineDuties.LatePrevoteAnswered` | consensus/bft/src/state_machine.rs:164-230 | after that a late quorum moves only the valid value |
| `MachineDuties.PrecommitAnswered` | consensus/bft/src/state_machine.rs:233-266 | a precommit quorum for a block commits it, once; short of that enough precommits in all start the precommit timeout |
| `MachineDuties.ForeignVoteIgnored` | consensus/bft/src/state_machine.rs:164-242 | votes of another height, round or type change nothing |
| `MachineDuties.SilenceLeadsToNextRound` | consensus/bft/src/state_machine.rs:269-313 | a machine that hears nothing gets through a round by its three timeouts, saying only a nil precommit |
| `MachineDuties.TimeoutsAsked` | consensus/bft/src/state_machine.rs:61-77 | which timeout is asked for on entering a round, when no proposal came, and when the round failed |
| `MachineDuties.StaleTimeoutIgnored` | consensus/bft/src/state_machine.rs:269-313 | timeouts of another height, round or step change nothing |
| `MachineDuties.RoundStartsEmpty` | consensus/bft/src/state_machine.rs:61-77 | a round starts with empty tallies and no proposal, and carries lock, valid value and blocks along |
| `MachineDuties.AdvanceStartsFresh` | consensus/bft/src/state_machine.rs:321-329 | a new height starts as a new machine does |
| `MachineDuties.BlockIsKept` | consensus/bft/src/state_machine.rs:316-318 | over every run a proposed block can be had under its hash until the height advances |
| `ProposerRotation.ProposerRotatesIff` | consensus/bft/src/state_machine.rs:80-86 | in N consecutive rounds of a height each validator index proposes exactly once, if and only if the 64-bit sum of height and round does not wrap inside them or N divides 2^64 |
| `ProposerRotation.NextInTurn` | consensus/bft/src/state_machine.rs:80-86 | the first validator opens, and each next round or height is the turn of the next validator |
| `Agreement.HonestIntersection` | consensus/bft/src/vote.rs:160-163 | with fewer than N/3 faulty, two quorums share an honest validator |
| `Agreement.HonestAreQuorum` | consensus/bft/src/vote.rs:160-163 | with fewer than N/3 faulty, the honest validators alone are a quorum |
| `Agreement.OnePolkaPerRound` | consensus/bft/src/state_machine.rs:164-230 | two prevote quorums of one round are for the same hash |
| `Agreement.CommitHasPolka` | consensus/bft/src/state_machine.rs:164-266 | a precommit quorum implies a prevote quorum in the same round |
| `Agreement.NoOtherPolka` | consensus/bft/src/state_machine.rs:97-266 | after a precommit quorum no later round has a prevote quorum for another hash |
| `Agreement.QuorumsAgree` | consensus/bft/src/state_machine.rs:97-266 | two precommit quorums of one height agree, whatever their rounds |
| `Agreement.CountedQuorumIsReal` | consensus/bft/src/state_machine.rs:164-266 | a quorum counted by an honest machine is backed by that many validators |
| `Agreement.DeliveredWasSaid` | consensus/bft/src/vote.rs:29-63 | an honest vote that verifies is one its signer emitted, field by field |
| `Agreement.PrevoteSource` | consensus/bft/src/state_machine.rs:97-161 | only an accepted proposal makes a machine prevote, and then by the lock rule; when that is for the proposal is `ProposalAnswered` |
| `Agreement.NextInv` | consensus/bft/src/state_machine.rs:97-329 | every step of any honest machine keeps the system invariant |
| `Agreement.ExecuteInv` | consensus/bft/src/state_machine.rs:97-329 | the system invariant holds after every schedule |
| `Agreement.AgreementAcrossRounds` | consensus/bft/src/state_machine.rs:97-266 | any two `CommitBlock`s of honest machines at one height carry the same hash, for every schedule, any rounds and any behaviour of the faulty |
| `Agreement.LockSoundness` | consensus/bft/src/state_machine.rs:164-230 | in every reachable state a lock had a prevote quorum in its round, was precommitted in it, and locked ≤ valid ≤ current round; every non-nil precommit had such a quorum |
| `Disagreement.OutsidersCommit` | consensus/bft/src/vote.rs:96-112 | for any number of validators: votes of keys outside the set are counted, so as many outsiders as make a quorum make a machine commit any hash |
| `Disagreement.CollectPrevotes` | consensus/bft/src/state_machine.rs:164-230 | a machine handed just enough prevotes for a hash locks on it and precommits it |
| `Disagreement.CollectPrecommits` | consensus/bft/src/state_machine.rs:233-266 | a machine handed just enough precommits for a hash commits it |
| `Disagreement.ClaimMoves` | consensus/bft/src/state_machine.rs:128-145 | a machine locked in round 0 leaves it and prevotes another hash, because the proposal claims round 0; no quorum is consulted |
| `Disagreement.ClaimBreaksAgreement` | consensus/bft/src/state_machine.rs:97-329 | one faulty validator of four, with a false claim, makes two honest machines commit different hashes at one height, by a schedule that is otherwise enabled |
| `Merkle.HashPairs` | consensus/bft/src/block.rs:121-138 | the inner loop computes one level, the odd node paired with itself |
| `Merkle.ComputeTxMerkleRoot` | consensus/bft/src/block.rs:105-141 | the level loop ends and computes the recursive tree hash |
| `Merkle.LevelKeepsTree` | consensus/bft/src/block.rs:121-138 | one level up leaves the tree hash unchanged |
| `Merkle.RootBinds` | consensus/bft/src/block.rs:105-141 | with injective leaf and node hashes, equal length and equal root mean equal lists |
| `Merkle.PaddingKeepsTree` | consensus/bft/src/block.rs:121-138 | the tree is the complete tree over the padded list |
| `Merkle.RootsEqualIff` | consensus/bft/src/block.rs:105-141 | for lists of any length: equal roots if and only if equal padded lists |
| `Merkle.RepeatedLastCollides` | consensus/bft/src/block.rs:121-138 | the root does not bind the length: repeating the last of an odd number of transactions keeps it |
| `Merkle.SmallRoots` | consensus/bft/src/block.rs:105-141 | the roots of up to three transactions: left before right, the odd one beside itself, zero for none |
| `TieredStores.HotCache.constructor` | runtime/storage/src/lru_cache.rs:21-28 | an empty cache of positive capacity |
| `TieredStores.HotCache.Get` | runtime/storage/src/lru_cache.rs:39-41 | a hit returns the value and becomes most recent |
| `TieredStores.HotCache.Put` | runtime/storage/src/lru_cache.rs:47-67 | the new entry is most recent; exactly the least recent one is handed to the callback when full |
| `TieredStores.HotCache.Remove` | runtime/storage/src/lru_cache.rs:70-72 | the entry leaves, the order of the rest stays |
| `TieredStores.TieredStorage.constructor` | runtime/storage/src/tiered.rs:22-46 | over whatever the warm and cold stores already hold, the tiers represent the plain map of it |
| `TieredStores.TieredStorage.PutInHot` | runtime/storage/src/tiered.rs:32-38 | a cache write with its eviction written to the warm tier |
| `TieredStores.TieredStorage.Get` | runtime/storage/src/tiered.rs:49-85 | returns the last value stored, from any tier, and leaves the stored map alone |
| `TieredStores.TieredStorage.Put` | runtime/storage/src/tiered.rs:89-95 | the stored map gains exactly this binding |
| `TieredStores.TieredStorage.Remove` | runtime/storage/src/tiered.rs:98-104 | the key leaves every tier and its value is returned |
| `TieredStores.TieredStorage.ArchiveKey` | runtime/storage/src/tiered.rs:109-115 | warm to cold without changing the stored map |
| `TieredStores.TieredStorage.ArchiveKeys` | runtime/storage/src/tiered.rs:120-130 | the same for a list, repeats allowed; the count is the number of distinct listed keys that were warm |
| `TieredStores.GetRefines` | runtime/storage/src/tiered.rs:49-85 | `get` answers as the plain map and never changes it |
| `TieredStores.PutRefines` | runtime/storage/src/tiered.rs:89-95 | `put` is a plain map update, also over an outdated cached value |
| `TieredStores.RemoveRefines` | runtime/storage/src/tiered.rs:98-104 | `remove` is a plain map removal |
| `TieredStores.ArchiveAllRefines` | runtime/storage/src/tiered.rs:120-130 | archiving any list of keys never shows |
| `TieredStores.StorageIsAMap` | runtime/storage/src/tiered.rs:32-130 | over every run of operations the tiers answer as one plain map, and the cache is the front of the keys by last use, within capacity |
| `TieredStores.EvictsLeastRecent` | runtime/storage/src/lru_cache.rs:47-67 | an eviction happens only when full, and takes the least recently used key |
| `TieredStores.HotPutExact` | runtime/storage/src/lru_cache.rs:47-67 | after a put the cache holds exactly the most recent keys that fit, the new one first |
| `TieredStores.GetCaches` | runtime/storage/src/tiered.rs:49-85 | a key found in any tier becomes the most recent of the cache; an unknown key changes nothing |
| `TieredStores.PutCaches` | runtime/storage/src/tiered.rs:89-95 | a written key is the most recent of the cache and is in the warm store; the cold store is left alone |
| `TieredStores.EvictedGoesWarm` | runtime/storage/src/tiered.rs:32-38 | exactly what a cache write pushes out is written to the warm store |
| `StateDb.StateDB.ApplyTransfer` | runtime/state/src/state_db.rs:48-94 | the object does the `Transfer` step, whose outcome is `TransferOutcome` and whose effect is `TransferEffect` |
| `StateDb.StateDB.ApplyBlock` | runtime/state/src/state_db.rs:99-134 | the object does the `Execute` fold: one receipt per transaction, a failure stops nothing |
| `StateDb.StateDB.TotalSupply` | runtime/state/src/state_db.rs:161-163 | the sum of balances modulo 2^64, in any map order |
| `StateDb.TransferSupply` | runtime/state/src/state_db.rs:48-94 | supply is kept if and only if the credit does not overflow; an overflowing one destroys the amount |
| `StateDb.FailureAtomicIff` | runtime/state/src/state_db.rs:48-94 | a failed transfer changes nothing if and only if it is not the late overflow |
| `StateDb.NoOverflowWithinSupply` | runtime/state/src/state_db.rs:48-94 | while the supply fits 64 bits no credit overflows |
| `StateDb.TransferEffect` | runtime/state/src/state_db.rs:48-94 | the exact effect of a success on every account, self-transfer included |
| `StateDb.TransferOutcome` | runtime/state/src/state_db.rs:48-94 | a transfer succeeds if and only if the sender exists, the nonce is theirs, the balance covers the amount and the credit fits (or goes to the sender); and when each error is the answer |
| `StateDb.ReceiptsTell` | runtime/state/src/state_db.rs:99-134 | each receipt of a block names its transaction and reports success if and only if that could pay in the state the earlier ones left |
| `StateDb.RunConserves` | runtime/state/src/state_db.rs:99-134 | over every sequence of transactions the supply is constant and nothing overflows |
| `StateDb.BlocksCompose` | runtime/state/src/state_db.rs:99-134 | consecutive blocks act as one long block, receipts included |
| `StateDb.FailedTransactionChangesNothing` | runtime/state/src/state_db.rs:99-134 | at any point of any run a failed transaction leaves every account as it was |
| `StateDb.TransferNonce` | runtime/state/src/state_db.rs:48-94 | a transfer past every check moves the sender's nonce by one and nobody else's; any other changes nothing |
| `StateDb.NoncesConsecutive` | runtime/state/src/state_db.rs:48-134 | from every state: the nonces a sender uses up (successes and late overflows) are consecutive from its starting one, and its nonce ends just past them |
| `StateDb.NoReplay` | runtime/state/src/state_db.rs:48-134 | from every state: two uses of one nonce are a multiple of 2^64 uses apart, and exactly then |
| `StateDb.SuccessesGapFreeIff` | runtime/state/src/state_db.rs:48-134 | the nonce is the start plus the successes so far at every point if and only if none of the sender's transactions ended in a late overflow; and then the successes carry the starting nonce and upwards |
| `StateDb.RunConservesIff` | runtime/state/src/state_db.rs:99-134 | no sequence of transactions changes the supply, if and only if the supply of the starting state fits 64 bits |
| `StateDb.RunDestroys` | runtime/state/src/state_db.rs:99-134 | from every state, over every run, the supply falls by exactly the amounts of late overflows |
| `StateDb.OverflowDestroys` | runtime/state/src/state_db.rs:84-93 | a concrete late overflow |
| `Staking.TakeUnlocked` | economics/staking/src/pool.rs:102-120 | the in-place removal loop computes `Withdraw` and removes exactly the amount |
| `Staking.SumUnlocked` | economics/staking/src/pool.rs:89-93 | the sum of unlocked entries modulo 2^64 |
| `Staking.WithdrawTakes` | economics/staking/src/pool.rs:102-120 | exactly the amount goes, all of it from unlocked entries |
| `Staking.WithdrawKeepsLocked` | economics/staking/src/pool.rs:102-120 | locked and permanent entries stay, amount and order included |
| `Staking.WithdrawIsFifo` | economics/staking/src/pool.rs:102-120 | the unlocked entries pay as a queue, wherever locked ones stand between |
| `Staking.WithdrawAdds` | economics/staking/src/pool.rs:102-120 | taking a and then b is taking a + b |
| `Staking.StakingPool.StakeTokens` | economics/staking/src/pool.rs:38-73 | the object does the `Stake` step, with the unlock day of `StakeUnlocks` and the power of `StakePower` |
| `Staking.StakingPool.UnstakeTokens` | economics/staking/src/pool.rs:76-128 | the object does the `Unstake` step |
| `Staking.StakingPool.DelegateTokens` | economics/staking/src/pool.rs:131-169 | the object does the `Delegate` step, with the unlock day of `DelegateUnlocks` and the power of `DelegationPower` |
| `Staking.StakingPool.UndelegateTokens` | economics/staking/src/pool.rs:172-227 | the object does the `Undelegate` step |
| `Staking.AddPower` | economics/staking/src/pool.rs:266-272 | saturating at every addition saturates only the sum |
| `Staking.AddDelegatedPower` | economics/staking/src/pool.rs:276-285 | the same over the delegations to one validator, in any map order |
| `Staking.StakingPool.GetVotingPower` | economics/staking/src/pool.rs:261-288 | own plus delegated weighted power, saturated once, in any map order |
| `Staking.StakeConservesIff` | economics/staking/src/pool.rs:38-73 | the total stays the sum of entries if and only if it fits 64 bits; Overflow is reported exactly otherwise |
| `Staking.DelegateConservesIff` | economics/staking/src/pool.rs:131-169 | the same for delegations |
| `Staking.UnstakeConserves` | economics/staking/src/pool.rs:76-128 | a success lowers the total and the entries by the amount, a refusal changes neither |
| `Staking.UndelegateConserves` | economics/staking/src/pool.rs:172-227 | the same for delegations |
| `Staking.UnstakeAdds` | economics/staking/src/pool.rs:76-128 | unstaking a then b leaves exactly the pool that unstaking a + b leaves |
| `Staking.UndelegateAdds` | economics/staking/src/pool.rs:172-227 | the same for delegations |
| `Staking.RunConserves` | economics/staking/src/pool.rs:38-227 | over every run without an Overflow the total is the sum of all entries and moved by exactly what went in and out |
| `Staking.RunAccounted` | economics/staking/src/pool.rs:38-227 | over every run, whatever the answers, entries and total differ by what overflowing calls entered, modulo 2^64 |
| `Staking.RunConservesIff` | economics/staking/src/pool.rs:38-227 | after any run the total is the sum of all entries if and only if that sum fits 64 bits and what overflowing calls entered is a multiple of 2^64 |
| `Staking.RoomForAll` | economics/staking/src/pool.rs:38-227 | if all deposits fit on top of the opening total, no call overflows |
| `Staking.ConservesUpToIff` | economics/staking/src/pool.rs:38-227 | every run whose deposits come to at most d keeps the total right, if and only if d fits on top of the opening total |
| `Staking.OverflowUnbalances` | economics/staking/src/pool.rs:60-70 | after an Overflow it no longer is: a concrete run |
| `Staking.PermanentForever` | economics/staking/src/pool.rs:38-227 | over every run permanent entries stay, and only new ones join behind them |
| `Staking.StakeUnlocks` | economics/staking/src/pool.rs:38-73 | a stake is unlocked from its epoch plus 0, 30, 90, 180 or 360, or never when permanent, and not before; nobody else is affected |
| `Staking.DelegateUnlocks` | economics/staking/src/pool.rs:131-169 | the same for a delegation |
| `Staking.WrappedLockOpens` | economics/staking/src/pool.rs:48-50 | where epoch plus duration does not fit 64 bits the stake is unlocked at once |
| `Staking.LocksHold` | economics/staking/src/pool.rs:38-227 | no run whose epochs come before a day touches an entry locked until then |
| `Staking.StakeIsHeld` | economics/staking/src/pool.rs:38-227 | what is staked under a tier stays whole through every run short of its day, and through every run when permanent |
| `Staking.DelegationIsHeld` | economics/staking/src/pool.rs:131-227 | the same for a delegation |
| `Staking.UnstakeOutcome` | economics/staking/src/pool.rs:76-100 | an unstake succeeds if and only if the amount is positive and within the unlocked sum; and when each error is the answer |
| `Staking.UndelegateOutcome` | economics/staking/src/pool.rs:172-200 | the same for undelegating |
| `Staking.StakePower` | economics/staking/src/pool.rs:261-288 | a stake adds its amount times its tier's weight to the own power of its staker |
| `Staking.DelegationPower` | economics/staking/src/pool.rs:261-288 | a delegation adds the same to the delegated power of its validator and of nobody else |
| `ValidatorSets.SortByStake` | runtime/validator-set/src/rotation.rs:14-37 | a ranking by power, ties by key, of exactly the given validators |
| `ValidatorSets.RankingUnique` | runtime/validator-set/src/rotation.rs:14-37 | there is only one such ranking, so map order does not matter |
| `ValidatorSets.NeverBack` | runtime/validator-set/src/rotation.rs:50-90 | whoever is swapped in was never swapped out before, and the other way round |
| `ValidatorSets.FindSwap` | runtime/validator-set/src/rotation.rs:64-78 | no swap if and only if no standby is stronger than an active; otherwise the first standby against the last active, by power and then key |
| `ValidatorSets.SwapLoop` | runtime/validator-set/src/rotation.rs:50-90 | the loop ends; afterwards no standby is stronger than an active; each swap was the first standby for the last active at that point, and uses up an original standby |
| `ValidatorSets.Fill` | runtime/validator-set/src/rotation.rs:92-113 | free seats go to the first standbys by power and then key, until the cap or the candidates run out |
| `ValidatorSets.Rotate` | runtime/validator-set/src/rotation.rs:43-116 | the strongest fill as many seats as the cap allows, jailed ones untouched, at most one swap per original standby, each the right one when made, nothing to do the second time |
| `ValidatorSets.RotationDetermined` | runtime/validator-set/src/rotation.rs:43-116 | there is only one right rotation: both the swaps and every status follow from the powers, the cap and who was active |
| `ValidatorSets.SettledIsOptimal` | runtime/validator-set/src/rotation.rs:43-116 | no set of non-jailed validators of that size has more total power |
| `ValidatorManagers.ValidatorSetManager.constructor` | runtime/validator-set/src/manager.rs:27-34 | an empty set within the cap |
| `ValidatorManagers.ValidatorSetManager.RegisterValidator` | runtime/validator-set/src/manager.rs:37-73 | errors in order; a newcomer is active if and only if there is room; the cap is kept |
| `ValidatorManagers.ValidatorSetManager.DeregisterValidator` | runtime/validator-set/src/manager.rs:76-81 | the record leaves and is returned |
| `ValidatorManagers.ValidatorSetManager.UpdateStake` | runtime/validator-set/src/manager.rs:84-97 | only that stake changes |
| `ValidatorManagers.ValidatorSetManager.JailValidator` | runtime/validator-set/src/rotation.rs:119-129 | only that status changes |
| `ValidatorManagers.ValidatorSetManager.UnjailValidator` | runtime/validator-set/src/rotation.rs:132-146 | back to standby, never straight to active; refused if not jailed |
| `ValidatorManagers.ValidatorSetManager.EpochRotation` | runtime/validator-set/src/manager.rs:138-149 | after it the active are the strongest, min(cap, non-jailed) of them, and within the cap; the swaps returned promote standbys and demote actives, nobody twice, each swap the right one when made; none if already settled |
| `ValidatorManagers.ValidatorSetManager.ActiveCount` | runtime/validator-set/src/manager.rs:228-234 | the counting loop finds the number of active validators, in any map order |
| `ValidatorManagers.ValidatorSetManager.GetProposer` | runtime/validator-set/src/manager.rs:184-220 | the choice by height from the active validators in key order |
| `ValidatorManagers.ListShares` | runtime/validator-set/src/manager.rs:189-202 | the active validators with their power in key order |
| `ValidatorManagers.PickLoop` | runtime/validator-set/src/manager.rs:210-216 | the cumulative search |
| `ValidatorManagers.ActiveProposeInProportion` | runtime/validator-set/src/manager.rs:184-220 | each active validator proposes exactly its power's worth of any `total_power` consecutive heights |
| `Proposers.PickOwns` | runtime/validator-set/src/manager.rs:209-216 | validator i is picked on exactly the slots between the totals before and after it |
| `Proposers.FallbackUnreachable` | runtime/validator-set/src/manager.rs:218-219 | the fallback is never taken while the total fits 64 bits |
| `Proposers.Proportional` | runtime/validator-set/src/manager.rs:184-220 | exact proportionality over any full turn, wherever it starts |
| `Proposers.ProportionalIff` | runtime/validator-set/src/manager.rs:184-220 | selection is proportional if and only if the total power fits 64 bits |
| `Slashing.EvidencePool.constructor` | runtime/slashing/src/evidence.rs:13-17 | no records |
| `Slashing.EvidencePool.SubmitEvidence` | runtime/slashing/src/evidence.rs:20-44 | empty data and known hashes are refused, in that order; otherwise filed under its hash, which is returned |
| `Slashing.EvidencePool.MarkProcessed` | runtime/slashing/src/evidence.rs:55-62 | only that record changes |
| `Slashing.SlashingEngine.constructor` | runtime/slashing/src/engine.rs:34-41 | nothing acted on |
| `Slashing.SlashingEngine.Submit` | runtime/slashing/src/engine.rs:44-46 | the same refusals and hash, keeping the engine invariant: what was acted on is processed and listed once |
| `Slashing.SlashingEngine.ProcessSingle` | runtime/slashing/src/engine.rs:76-155 | treasury, history, validator record and own stake change as the verdict says |
| `Slashing.SlashingEngine.SlashValidator` | runtime/slashing/src/engine.rs:158-179 | the same penalty directly; no event is reported as an unknown validator |
| `Slashing.SlashingEngine.ProcessAllEvidence` | runtime/slashing/src/engine.rs:51-73 | every pending record is acted on exactly once, in some order, and none is pending afterwards; over the engine's life no record is acted on twice |
| `Slashing.SlashWithinStakeIff` | runtime/slashing/src/engine.rs:95-97 | a slash never exceeds the stake if and only if the ratio is at most 10,000 basis points |
| `Slashing.ProcessOneLocal` | runtime/slashing/src/engine.rs:76-155 | nobody but the offender is touched, no delegation at all, and the offender is jailed |
| `Slashing.SlashFromPool` | runtime/slashing/src/engine.rs:115-118 | if the offender has the amount unlocked, exactly it leaves their entries and the total; otherwise the pool is left alone |
| `Slashing.OffenceCosts` | runtime/slashing/src/engine.rs:76-155 | each offence costs its own ratio of the recorded stake, rounded down, which moves to the treasury and the history, and jail; nothing happens when that is nothing |
| `Slashing.StrangerUntouched` | runtime/slashing/src/engine.rs:82-92 | evidence against an unknown validator changes nothing |
| `Slashing.ApplyConservesIff` | runtime/slashing/src/engine.rs:104-155 | for any event in any state: treasury plus stakes is kept if and only if what leaves the stake equals what the treasury has room for; the books are kept if and only if it has room for all |
| `Slashing.OverslashingCreates` | runtime/slashing/src/engine.rs:95-120 | a ratio of 20,000 basis points on a stake of 10,000 makes 10,000 |
| `Slashing.ProcessAllMakes` | runtime/slashing/src/engine.rs:51-155 | over every batch, with any ratios, wealth moves by exactly the sum of those differences |
| `Slashing.KeepsWealthIff` | runtime/slashing/src/engine.rs:51-155 | every batch on every world that fits 64 bits keeps treasury plus stakes, if and only if no ratio exceeds 10,000 basis points |
| `Slashing.ProcessAllConserves` | runtime/slashing/src/engine.rs:51-155 | with ratios of at most 10,000 and a total within 64 bits, over every batch treasury plus stakes is constant, the treasury is the sum of recorded events, delegations and unnamed validators are untouched |
| `Slashing.SlashingEngine.ActOnPending` | runtime/slashing/src/engine.rs:56-72 | the loop: each pending record of the snapshot once, then marked |
| `Slashing.StakesOnlyShrink` | runtime/slashing/src/engine.rs:51-155 | no batch raises a stake |
| `FeeSplits.ValidateIsWholeIff` | economics/fees/src/types.rs:42-44 | a validated split is a whole one if and only if the sum did not wrap |
| `FeeSplits.WrappedValidate` | economics/fees/src/types.rs:42-44 | a split that validates by wrapping |
| `FeeSplits.SplitValidates` | economics/fees/src/types.rs:87-111 | for every configuration and epoch the result validates (by wrapping), and during a transition it is whole if and only if the three interpolated ratios leave something |
| `FeeSplits.RatioBetween` | economics/fees/src/types.rs:92-97 | an interpolated ratio stays between launch and maturity and starts at launch |
| `FeeSplits.RatioMonotone` | economics/fees/src/types.rs:92-97 | it only moves one way |
| `FeeSplits.SplitRunsBetween` | economics/fees/src/types.rs:87-111 | the schedule runs from launch to maturity, each party between its own two ratios |
| `FeeSplits.InterpolatePlainIff` | economics/fees/src/types.rs:92-97 | for every length below 2^63 the signed arithmetic is truncating interpolation if and only if the product fits |
| `FeeSplits.WholeIffBurnNotNegative` | economics/fees/src/types.rs:87-111 | while the products fit, the ratios sum to 10,000 if and only if the remainder left to burn is not negative |
| `FeeSplits.TightUnderflows` | economics/fees/src/types.rs:99-103 | in the tight case a transition as long as the rise underflows at a named epoch |
| `FeeSplits.AlwaysWholeIff` | economics/fees/src/types.rs:87-111 | the ratios sum to 10,000 at every epoch of every transition whose products fit if and only if it is not the case that one ratio rises, two fall, and burn starts or ends at zero with no slack |
| `FeeSplits.UnsafeSchedule` | economics/fees/src/types.rs:87-111 | a validated schedule of that family whose ratios overdraw |
| `FeeSplits.AnyLengthIff` | economics/fees/src/types.rs:87-111 | over every 64-bit transition length the ratios always sum to 10,000 if and only if launch and maturity are equal |
| `FeeSplits.BurningIsSafe` | economics/fees/src/types.rs:87-111 | one basis point of burn at both ends is enough |
| `FeeSplits.SplitFeeFair` | economics/fees/src/split.rs:25-38 | the parts sum to the fee, nobody but burn gets more than their share, burn gets less than three units more |
| `FeeSplits.SplitFeePays` | economics/fees/src/split.rs:25-38 | any ratios whose three parts leave something pay out exactly the fee, each share rounded down, burn less than three units over |
| `FeeSplits.SplitFeeConservesIff` | economics/fees/src/split.rs:25-38 | any ratios conserve every fee if and only if the three parts leave something |
| `FeeSplits.EpochConservesIff` | economics/fees/src/split.rs:16-38 | of any schedule whose maturity validates, at any epoch: every fee is conserved if and only if the ratios in force sum to 10,000 |
| `FeeSplits.AlwaysConservesIff` | economics/fees/src/split.rs:16-38 | every fee is conserved at every epoch of every transition whose products fit, if and only if the ratios are outside the unsafe family |
| `FeeSplits.OverdrawnLoses` | economics/fees/src/split.rs:25-38 | any overdrawn ratios fail on a fee of 10,000: burn wraps |
| `FeeSplits.EveryFeeConserved` | economics/fees/src/split.rs:16-38 | a validated schedule outside the unsafe family conserves every fee at every epoch whose products fit |
| `FeeSplits.DefaultSplitConserves` | economics/fees/src/types.rs:58-77 | the default schedule is such a one |
| `FeeMarkets.FeeMarket.constructor` | economics/fees/src/eip1559.rs:22-23 | the fee starts at the floor or above |
| `FeeMarkets.FeeMarket.Create` | economics/fees/src/eip1559.rs:15-24 | zero elasticity and invalid splits are refused, in that order |
| `FeeMarkets.FeeMarket.UpdateBaseFee` | economics/fees/src/eip1559.rs:31-61 | the object does the `NextFee` step, of the size `FeeStepExact` gives, and stays at or above the floor |
| `FeeMarkets.FeeStepBounded` | economics/fees/src/eip1559.rs:31-61 | up to twice the target: floor kept, right direction, and by at most fee / elasticity (or one unit up) |
| `FeeMarkets.FeeStepExact` | economics/fees/src/eip1559.rs:31-61 | up to twice the target the step is fee times distance over target times elasticity, rounded down, at least one upwards and never past the floor |
| `FeeMarkets.RiseWithinIff` | economics/fees/src/eip1559.rs:31-61 | for every block and fee: a rise stays within fee / elasticity if and only if the gas is at most the target, or the raise cast to 64 bits is within it (or saturates within it); without saturation, if and only if fee >= elasticity and the computed raise is within it |
| `FeeMarkets.CapHoldsIff` | economics/fees/src/eip1559.rs:31-61 | up to twice the target the documented cap holds at every fee if and only if the gas is at most the target or the floor is at least elasticity |
| `FeeMarkets.CapHoldsBeyondIff` | economics/fees/src/eip1559.rs:31-61 | past the target it holds at every unsaturated fee if and only if the least fee that breaks it saturates |
| `FeeMarkets.CapHoldsAllIff` | economics/fees/src/eip1559.rs:31-61 | past the target, at every fee: it holds if the bound itself saturates at the least breaking fee, and only then unless the raise there is past 64 bits |
| `FeeMarkets.FirstBreakingExists` | economics/fees/src/eip1559.rs:40-48 | past twice the target there is such a least fee |
| `FeeMarkets.BeyondTwiceTarget` | economics/fees/src/eip1559.rs:40-48 | past twice the target every positive multiple of target times elasticity meets `Breaks`, and where it is at or above the floor and unsaturated the fee rises by more than the fraction |
| `FeeMarkets.FeeMonotone` | economics/fees/src/eip1559.rs:31-61 | fuller blocks and higher fees lead to higher fees, for any gas whose raise fits 64 bits |
| `FeeMarkets.RaiseWrapsAway` | economics/fees/src/eip1559.rs:40-48 | a raise of 2^64 is cast to nothing, so a fuller block leads to the lower fee: a concrete input |
| `FeeMarkets.RunMonotone` | economics/fees/src/eip1559.rs:31-61 | over whole runs: pointwise fuller blocks never end with the lower fee, and the floor holds |
| `FeeMarkets.EmptyBlock` | economics/fees/src/eip1559.rs:49-60 | an empty block leaves the fee alone if and only if it is at the floor or below elasticity |
| `FeeMarkets.EmptyBlocksSettle` | economics/fees/src/eip1559.rs:31-61 | empty blocks settle the fee within fee - floor steps, for good, at the floor or below elasticity |
| `Mempools.TransactionPool.constructor` | mempool/src/pool.rs:24-31 | an empty pool |
| `Mempools.TransactionPool.AddTransaction` | mempool/src/pool.rs:34-69 | errors in the order of the checks; the new state; the three structures stay in agreement |
| `Mempools.TransactionPool.Admit` | mempool/src/pool.rs:34-69 | the body: the checks and the filing, with the empty entry a refused new sender leaves behind |
| `Mempools.TransactionPool.RemoveCommittedTransactions` | mempool/src/pool.rs:72-91 | the new state; the three structures stay in agreement |
| `Mempools.TransactionPool.Drop` | mempool/src/pool.rs:72-91 | the body: both loops and the cleanup |
| `Mempools.TransactionPool.DropEntries` | mempool/src/pool.rs:75-85 | the per-sender loop keeps the count right at every turn |
| `Mempools.TransactionPool.GetPendingOrdered` | mempool/src/pool.rs:94-113 | min(k, count) distinct stored transactions in priority order, none left behind that goes before one taken |
| `Mempools.TransactionPool.Contains` | mempool/src/pool.rs:121-123 | true if and only if a stored transaction has the hash |
| `Mempools.TransactionPool.Clear` | mempool/src/pool.rs:126-130 | back to empty |
| `Mempools.Sort` | mempool/src/pool.rs:102-106 | a sorted permutation |
| `Mempools.AddAgrees` | mempool/src/pool.rs:34-69 | every addition, accepted or refused, keeps the agreement and both limits |
| `Mempools.AdmittedIff` | mempool/src/pool.rs:34-69 | a transaction is admitted if and only if it is well formed, signed, not in the pool and within both limits |
| `Mempools.AddEffect` | mempool/src/pool.rs:34-69 | an admitted one joins the end of its sender's list, stamped with the count and ranked by amount; no other list changes |
| `Mempools.RefusalTells` | mempool/src/pool.rs:34-69 | when each error is the answer |
| `Mempools.RemoveAgrees` | mempool/src/pool.rs:72-91 | every removal keeps them |
| `Mempools.RemoveExact` | mempool/src/pool.rs:72-91 | exactly the entries with a listed hash leave |
| `Mempools.RunAgrees` | mempool/src/pool.rs:34-130 | over every run known hashes are exactly the stored ones, pairwise distinct, the count is right, both limits hold and each transaction passed the checks |
| `Mempools.KnownCounts` | mempool/src/pool.rs:12-21 | in agreement, there are as many known hashes as stored transactions |

## Left out

- The node's event loop, timers and channels, and its handling of a `CommitBlock` from the network, which advances the height without consulting the machine: asynchronous plumbing.
- Liveness: the propose timeout sends no vote, so only safety is claimed.
- Ed25519, SHA-256, bincode and JSON encodings: signatures are ideal, hashes are parameters, injective where a statement says so. The mempool hash and the transaction hash of a committed block are different functions, so that committed transactions leave the pool is not claimed end to end.
- `TimeoutConfig::timeout_for` and the round state's mirror fields: durations and copies.
- The `usize` products of `is_quorum`, `max_size` and `total_count`: counts of validators and transactions stay far below the word size.
- Machines.BftStateMachine.HandleTimeout: excludes the prevote timeout of a machine with no validators in the prevote step, on which the source panics.
- ProposerRotation.ProposerRotatesIff: is about N rounds that exist, so the 32-bit round does not wrap within them.
- Disk details of the warm and cold stores, I/O errors, locks, `locate` and the storage counters: each store is a map whose operations succeed.
- `distribute_epoch_rewards`: would only add an easy fold.
- Staking positions keep owner, amount, tier and unlock epoch; `u64` stake weights are as in the source, `vote_weight` in floating point is not used by it.
- `compute_state_root`, saving and loading the state, `set_account`, `get_account_mut`, `validators_mut`, `get_validator_mut` and `hot_cache().put`: raw access that runs exclude.
- Debit, credit and nonce increment of an account are part of `Transfer` rather than methods of an account object: an account is a value in the map.
- The order in which pending evidence is processed: rounding makes the amounts depend on it, so results are stated for every order.
- FeeMarkets.FeeMarket.UpdateBaseFee: requires a positive gas target unless the block hits it exactly, because the source divides by it.
- The panic of the interpolation on the quotient of the least signed number by -1 is modelled as a wrap.
- FeeMarkets.CapHoldsAllIff: leaves open the blocks past twice the target whose raise at the least breaking fee exceeds 64 bits, where the cast can hide it; `RiseWithinIff` decides each fee.
- `calculate_fee`: saturating products, an easy member.
- Arrival order in the mempool: stamps are the current count, so after a removal they repeat; ties are ordered by stamp as in the source, and no claim is made about arrival.
- Nonce and balance errors of the mempool, which the pool never raises.
- Networking, peer scores, RPC, CLI and genesis handling: plumbing.
