# AgentChain: a verified model

AgentChain is a small proof-of-stake Layer-1 node. This project models its consensus-critical core in Dafny 4.11
and proves what that core keeps: the ledger and its transaction switch, the chain machine with speculative execution
and rollback, the vote and commit protocol of one node and of a network of nodes, the wire format, the transaction
pool, and the integer arithmetic under all of them.

`dafny verify dfyconfig.toml` checks everything.

## How it is laid out

Each component has a value-level specification and, where the C code changes things in place, a class whose methods
are proved to compute exactly that specification. Theorems over runs are proved on the specifications. The ring, the
slot table, the live map, the pool and the write cursor are arrays changed in place; the two state tables and the
transaction index are `seq` fields that each write reassigns, so shifting rows within one buffer is not modelled.

| component | specification and theorems | stateful form |
|---|---|---|
| words, byte order, layouts | `Words`, `Types` | |
| wire format | `Codec`, `Layouts`, `Domains` | `CodecCursors` (bounded cursors) |
| sorted tables, snapshots, state root | `Table`, `Snapshots`, `Roots` | `StateStore` (both tables, apply, serialize) |
| ledger transition | `Ledgers`, `Admission`, `Effects`, `Conservation` | `StateStore.Store.ApplyTx` |
| integer arithmetic | `Isqrt`, `Market`, `Priority` | `Isqrt.IsqrtU64` |
| weights, certificates, liveness | `Quorum`, `Accountability`, `Liveness`, `Restart` | `ChainStore` (live map array) |
| chain, runs, forks | `Chains`, `ChainFacts`, `Nonces`, `Emission`, `RewardPool`, `Agreement`, `Forks`, `Provenance`, `Ownership` | `ChainStore`, `TxIndex` |
| vote and commit protocol | `Voting`, `VoteLocks`, `Commits`, `Phases`, `Rounds`, `Network`, `Conviction`, `TwoVotes`, `Split`, `SplitExample` | `ConsensusStore` (ring and slot-table arrays) |
| transaction pool | `Pool`, `PoolRules`, `PoolUse` | `Mempool` (one sorted array) |

Hashing, Ed25519 and the floating-point committee draw are function values of the datatype `Types.Crypto`: arbitrary,
deterministic, nothing else. A 32-byte hash cannot be injective, so where a theorem needs it, it asks only that the
finitely many strings actually hashed do not collide. All amounts are 64-bit; every wrap of the source is written out.

## What the code does where its comments say something else

- `validate_commit` never checks that signers are distinct (src/chain.c:931-946). Without that the safety floor says
  nothing and a double commit convicts nobody: `Accountability.DuplicatesDefeatTheFloor`. Nodes keep their own lists
  distinct (`Network.RunsStaySound`).
- The live weight in `validate_commit` is the one after the block, not before it (src/chain.c:955, comment at 897-903).
  `Network.StakeChangeShiftsTheGate` says by how much that moves the gate; `Network.BondRaisesItsOwnBar` is a block that
  passes the gates of `try_commit_inner` and that no node accepts.
- A validator may vote for two blocks at one height, although src/consensus.c:75-77 says it must not:
  `TwoVotes.HonestNodeVotesTwice` is a run of four events that does it, `VoteLocks.MovesIffLower` is the exact condition,
  and `Network.HonestMoveIsSlashable` shows that following the protocol this way produces evidence `apply_tx` accepts.
  "At most one block per height" (src/consensus.c:764-771) fails without any faulty node:
  `Split.HonestVotesSplitTheNetwork`, with all inputs written out in `SplitExample.TheNetworkSplits`. It holds in the
  forms `Network.ForkNeedsAMovedVote` and `Network.NoMovesNoFork`.
- The separator byte does not keep accounts and names apart (section 11.1 of PROTOCOL.md says it does):
  `Roots.SeparatorCanBeMistaken`. `Roots.RootInputDetermines` has the condition under which the root determines the state.
- Nothing bounds `valid_until` from above and no sender has to exist, although section 5.3 of PROTOCOL.md says so:
  `Admission.IncludedIffNothingFails` lists everything that is asked.
- The fee rule of section 8.2 holds while the product of fee and gas difference fits a word: `Market.MoveIsExactIff`.
- A self-transfer burns its amount; a self-slash keeps the stake and mints the reward; a price per gas that wraps is
  free although the tip is paid out; a bond can leave its own fee unpaid. `Conservation.ConservedIffConserving` excludes
  exactly these.
- Blocks of at most 4096 transactions never reach the gas target, so the base fee is 1 or 2 for ever:
  `ChainFacts.BaseFeeStaysMinimal`.
- A node restarted before height 16 forgets genesis validators that have not signed: `Restart.EarlyRestartKeepsIff` and
  `Restart.EarlyRestartForgetsGenesis`; from height 16 on nothing changes: `Liveness.RestartKeepsLiveWeight`.
- Signers that arrive inside a block are stored unverified (src/consensus.c:493-501), and one bad entry keeps the
  proposal from ever being committed: `Network.PoisonedNeverCommits`.

## Model

| member | source | states |
|---|---|---|
| Network.ForkNeedsAMovedVote | src/consensus.c:738-793 | for any number of peers and any events: the chains of two peers do not fork, or at the first height with different content the two certificates hold the two signatures that convict a validator with stake there; and if that validator is a peer whose certificate entries are votes it cast, it moved its vote strictly downward at that height |
| Network.NoMovesNoFork | src/consensus.c:764-771 | at most one block per height whenever everybody listed in both certificates is a peer whose entries are its own votes and whose vote did not move there |
| Network.HonestMoveIsSlashable | src/state.c:511-540 | two votes that a node broadcast in moving its vote are evidence that slashes it, from anybody else able to pay |
| Conviction.ConvictedIffMoved | src/state.c:511-540 | from everything an honest node ever signed, votes, proofs and transactions, it can be convicted at a height if and only if it moved its vote there; so one vote convicts nobody |
| Conviction.SteadyValidatorKeepsStake | src/state.c:511-540 | a validator that never moves its vote and sends nothing keeps its stake in every block of every reachable chain |
| Conviction.PassesOnlyIfCast | src/codec.c:301-308 | a signature of a key that passes as a vote for a block is a vote the node cast for that block at that height |
| Codec.VoteMessageBinds | src/codec.c:301-308 | a vote message determines height and block |
| Domains.VotesAreApart | src/crypto.c:81-120 | no proof input and no transaction hash is a vote message |
| Domains.DrawsBind | src/chain.c:765-780 | a draw input determines its purpose, seed and slot; leader and committee inputs never coincide |
| Domains.ProofInputsBind | src/crypto.c:81-120 | the tagged input of a proof determines what is proved |
| Domains.GenesisSeedBinds | src/chain.c:423-431 | the genesis seed tells networks apart by identifier and genesis time |
| Domains.HashInputsAreApart | src/codec.c:201-280 | transactions, blocks, states, proofs, priorities and seeds are hashed under different tags |
| Network.SecondVote | src/consensus.c:75-91 | a node locked at a height that sees a lower priority signs a second, different block at that height |
| TwoVotes.HonestNodeVotesTwice | src/consensus.c:738-793 | from a new node: proposal, vote phase, proposal of lower priority, vote phase makes an honest committee member broadcast one signed vote for each of the two blocks |
| TwoVotes.HonestVotesCertifyBoth | src/chain.c:910-971 | honest validators with enough weight that all go through these four events have cast the votes of a certificate that `validate_commit` takes for both blocks of one height |
| Split.HonestVotesSplitTheNetwork | src/consensus.c:474-595 | for every genesis and two built proposals of falling priority: both blocks, certified by votes the validators broadcast and nothing else, are committed by peers that hear one each, and these are on forked chains |
| SplitExample.TheNetworkSplits | src/consensus.c:764-771 | one such network, with all its keys, stakes and primitives written out |
| Rounds.HonestRoundCommits | src/consensus.c:597-809 | progress from every reachable chain: when a leader proposes for a later slot and drawn validators with enough weight do their duty, every new node that hears the proposal and their votes has committed it by the end of the slot, certified by their votes alone |
| Rounds.HeardVotesCommit | src/consensus.c:597-651 | the same for any valid votes with the weight, whoever sent them and whenever they arrive |
| Rounds.DutyIsDone | src/consensus.c:738-793 | a drawn validator that hears a proposal and runs the vote phase of its slot broadcasts exactly its signed entry for it |
| Rounds.VotedIsAccepted | src/chain.c:973-1150 | valid votes with the weight turn a built proposal into a block every node on that chain accepts |
| Commits.GrowsIffRipe | src/consensus.c:391-468 | an attempt makes the chain grow by the gathered block if and only if the proposal is undecided, has the weight, is out of grace and the chain takes it; other proposals are untouched |
| Commits.UnripeWaits | src/consensus.c:416-431 | otherwise only the moment the threshold was first reached is kept |
| Commits.DuplicateIsMarked | src/consensus.c:439-460 | a proposal the chain stores already is marked and broadcast without changing the chain |
| Commits.GraceWindow | src/consensus.c:424-431 | sealing waits 300 ms from then, but not beyond the slot after the proposal's |
| Commits.SlotClock | src/chain.c:614-624 | slot s is current for two seconds from genesis plus 2 s seconds |
| Commits.VoteIsRecorded | src/consensus.c:642-647 | a valid, new vote for a held proposal is appended to its signers |
| Commits.DecisiveVoteCommits | src/consensus.c:642-651 | the vote that makes a proposal ripe makes the chain grow by it |
| Commits.OtherVotesChangeNothing | src/consensus.c:597-641 | a vote that does not verify, is not drawn, is listed already or names nothing held changes nothing |
| Commits.ValidVoteIff | src/consensus.c:615-640 | a received vote is checked exactly like an entry of a certificate |
| Commits.ProposalIsHeld | src/consensus.c:538-588 | a new proposal on this tip with a valid leader proof is held with its signers and priority, in a free entry or that of a proposal seen no later than any other |
| Commits.UnwelcomeIsIgnored | src/consensus.c:538-557 | a proposal of another version, tip or height, or without a valid leader proof, changes nothing |
| Commits.CertificateIsMerged | src/consensus.c:485-508 | a known block brings its signers to the entry |
| Commits.MergeListsEverybody | src/consensus.c:493-501 | everybody listed in a received certificate is listed afterwards while there is room |
| Commits.OldestIsOldest | src/consensus.c:123-141 | the ring gives up the first of the entries seen earliest |
| Commits.LowestSlotIsLowest | src/consensus.c:312-324 | the slot table gives up the first of the lowest slots |
| Commits.SealCommits | src/consensus.c:801-809 | the end of a slot commits its undecided proposal if it has the weight, whatever the grace window |
| Commits.FirstIsSealed | src/consensus.c:801-809 | among several proposals of a slot that could be sealed the first in the ring is |
| Commits.LeaderProposes | src/consensus.c:657-731 | a leader broadcasts and holds the block built from the best 256 of its pool and drops what expired; anybody else does nothing |
| Commits.RequestsAreLimited | src/consensus.c:511-536 | missing headers are asked for after four seconds or a move of the target by more than 64, from the next height, at most 256 |
| Phases.VotesForItsChoice | src/consensus.c:738-793 | a phase broadcasts one signed vote for its choice, closes that slot and lists the node, if it is a validator, open, has a choice and is drawn; else no vote |
| Phases.ChosenIsChoice | src/consensus.c:756-790 | the choice is the locked block while no undecided proposal is strictly better, else the first of the best |
| Phases.OneVotePerSlot | src/consensus.c:333-370 | a second phase for the slot just voted in casts nothing |
| Phases.PhaseCommitsItsChoice | src/consensus.c:790-792 | when its own vote makes the choice ripe, the phase commits it |
| Phases.NotesTheBest | src/consensus.c:575-580 | the slot table keeps the best priority seen for a slot |
| Phases.InCommitteeIff | src/consensus.c:217-244 | exactly when a node is in a committee, and with which proof |
| Phases.LeadsIff | src/consensus.c:179-214 | exactly when it leads a slot |
| Phases.ActiveAreCounted | src/chain.c:708-724 | the active validators are the accounts with at least the minimum stake |
| Phases.PriorityIsScoreByWeight | src/consensus.c:284-308 | a priority is the score of the proof divided by the root of the proposer's stake |
| Phases.NoWeightIsLast | src/consensus.c:290-294 | a proposer without stake comes last |
| Network.RunsStaySound | src/consensus.c:474-651 | over every run, ring entries never list a signer twice nor more than 256, and the node's chain is the result of `accept_block` calls on blocks with distinct signers |
| Network.PoisonedNeverCommits | src/consensus.c:391-468 | a proposal that lists one entry `validate_commit` refuses is never committed, whatever the clock and the force flag |
| Network.MergeOnlyAppends | src/consensus.c:493-501 | merging received signers never removes an entry |
| Network.SealingAgreesWithValidation | src/consensus.c:391-414 | with verified signers and unchanged stakes, the gates of `try_commit_inner` pass if and only if `validate_commit` succeeds |
| Network.PlainBlocksKeepStakes | src/state.c:451-544 | a block of transfers and registrations changes no stake of any account |
| Network.ApplyKeepsStakes | src/state.c:451-567 | neither does a rejected transaction, a failed body, a transfer or a registration |
| Network.StakeChangeShiftsTheGate | src/chain.c:948-957 | when only the stake of one live validator differs after the block, the live weight of the gate differs by exactly the change of its weight |
| Network.BondBlockStakes | src/state.c:469-478 | a block with one successful bond raises the stake of its sender and leaves every other stake alone |
| Network.BondRaisesItsOwnBar | src/chain.c:955-969 | a block in which one of three equal validators bonds three times its stake, signed by two of them, passes the gates of `try_commit_inner` and is never accepted |
| VoteLocks.VotesDescend | src/consensus.c:738-793 | over every run without restart, cast votes never go back in height, and at one height the block changes only with a strictly lower priority |
| VoteLocks.LockOverRuns | src/consensus.c:772-790 | between any two moments of a run the lock is unchanged, higher, or at the same height and strictly lower in priority |
| VoteLocks.SwitchesAreBounded | src/consensus.c:764-771 | at one height a vote changes fewer times than there are different priorities |
| VoteLocks.LockIsLowest | src/consensus.c:756-790 | after a vote phase the locked priority is at most that of every undecided proposal for the next height |
| VoteLocks.MovesIffLower | src/consensus.c:772-773 | an open vote phase at a voted height changes the locked priority if and only if a strictly lower undecided proposal is in the ring |
| VoteLocks.PhaseMovesDown | src/consensus.c:333-370 | a vote phase casts at most one vote, signed by the node, for the block it is locked on afterwards |
| VoteLocks.NodesConverge | src/consensus.c:756-791 | any number of nodes with the same undecided proposals and a unique lowest priority lock the same block after one phase each, whatever ring order and earlier votes |
| ConsensusStore.Consensus.constructor | src/consensus.c:861-874 | a new node has an empty ring, no vote and the given chain |
| ConsensusStore.Consensus.Find | src/consensus.c:114-121 | the first occupied entry with the hash, or none |
| ConsensusStore.Consensus.Alloc | src/consensus.c:123-141 | the first free entry, or the first of those seen earliest |
| ConsensusStore.Consensus.Touch | src/consensus.c:312-324 | the entry for a slot, evicting the lowest slot when absent |
| ConsensusStore.Consensus.CommitteeProof | src/consensus.c:217-244 | the membership proof exactly when the node has enough stake and is drawn; the chain is unchanged |
| ConsensusStore.Consensus.ThresholdMet | src/consensus.c:391-414 | the two weight gates over live and total weight |
| ConsensusStore.Consensus.TryCommit | src/consensus.c:391-468 | the whole step: gates, grace window with 64-bit wrap, acceptance, commit mark, removal of the block's transactions from the pool, and broadcast |
| ConsensusStore.Consensus.Stash | src/consensus.c:559-588 | a proposal with its signers and priority replaces the allocated entry and is noted for its slot |
| ConsensusStore.Consensus.HandleBlock | src/consensus.c:474-595 | merges signers of a known proposal, asks for a gap, or stashes a welcome proposal and tries to commit |
| ConsensusStore.Consensus.RequestGap | src/consensus.c:511-536 | the rate-limited request for missing headers |
| ConsensusStore.Consensus.HandleVote | src/consensus.c:597-651 | appends a verified, new signer to the proposal it names, then tries to commit |
| ConsensusStore.Consensus.CastVote | src/consensus.c:333-370 | signs, lists itself at most once, marks the slot and broadcasts, or does nothing outside the committee |
| ConsensusStore.Consensus.VotePhase | src/consensus.c:738-793 | selection, re-affirmation or move of the lock, vote and commit attempt |
| ConsensusStore.Consensus.SealPhase | src/consensus.c:801-809 | forces a commit attempt on every undecided entry of the slot, in ring order |
| ConsensusStore.Consensus.Propose | src/consensus.c:657-731 | when drawn: takes the best 256 of the pool, prunes it, builds on the current tip, stashes, broadcasts and tries to commit |
| ConsensusStore.Consensus.Leads | src/consensus.c:179-214 | enough stake, somebody active, and drawn for the slot; the chain is unchanged |
| Forks.ForkIsSlashable | src/chain.c:910-971 | for any two runs of `accept_block` from one genesis: no fork, or evidence that convicts a validator with stake at the first forked height |
| Forks.FirstDifferenceIsDoubleSigned | src/chain.c:959-969 | at the first height where contents differ some validator with stake signed both blocks |
| Forks.AgreementFixesLedger | src/chain.c:1054-1085 | chains with the same content below a height have the same ledger there, whatever their signatures |
| Forks.DoubleVoteSlashes | src/state.c:511-540 | evidence of a double vote empties the validator's stake in every ledger, when sent by anybody else able to pay |
| Quorum.TwoCommitsExposeADoubleSigner | src/chain.c:910-971 | two certificates for different blocks of one height against the same stakes share a signer, even with different seeds, live maps and post-states |
| Accountability.RepeatedSignerCommitsIff | src/chain.c:931-969 | a certificate that repeats one verified entry n times passes if and only if n times its weight passes both gates |
| Accountability.DuplicatesDefeatTheFloor | src/chain.c:931-969 | two validators with a hundredth of the weight each commit two blocks of one height by repeating themselves, and no validator signed both |
| SplitExample.RepetitionConvictsNobody | src/chain.c:931-946 | two written-out blocks of height 1, each certified by one validator repeating itself, that convict nobody |
| Accountability.DoubleSignersAreHeavy | src/chain.c:959-969 | the validators convicted by two commits at one height weigh at least what the certificates exceed the total by, and a third of the total when everybody is live |
| Quorum.EvidenceIsAccepted | src/state.c:511-567 | the exact accounts of validator and reporter after slashing with valid evidence |
| Quorum.LiveAtMostTotal | src/chain.c:362-379 | live weight never exceeds total weight |
| Quorum.TwoThirdsSuffice | src/chain.c:955-969 | every weight of two thirds of the total passes both gates if and only if live exceeds total by no more than rounding |
| Quorum.TotalWeightFits | src/chain.c:714-718 | fewer than 2^32 accounts cannot wrap the total weight |
| Quorum.QuorumSumFits | src/chain.c:929-957 | three times the weight of 256 signers fits a word |
| Chains.RunIsReplay | src/chain.c:973-1150 | after any sequence of offered blocks, ledger, live map and index equal the replay of the stored blocks, each accepted on the replay of its prefix |
| Provenance.AcceptedIff | src/chain.c:973-1150 | a block is accepted if and only if it is linked, stamped within three seconds of its slot and not from the future, led, priced, executed and sealed, each spelled out |
| Provenance.DuplicateIff | src/chain.c:980-989 | when a block counts as already stored |
| Provenance.EveryBlockIsEarned | src/chain.c:883-1112 | every stored block of every run has a leader with stake and a valid proof, entitled signers with the weight, and roots that match its execution |
| Provenance.NothingFromTheFuture | src/chain.c:1000-1003 | no stored block is stamped more than 1.5 s after the last moment anything was offered |
| Provenance.CommittedAreAuthorized | src/chain.c:1057-1066 | every transaction of every stored block verifies under its sender's key, is for this chain and had not expired in its slot |
| Provenance.ExecutesIffEachRuns | src/chain.c:1054-1066 | a list executes if and only if each transaction is signed, taken by the ledger it meets and fits the block |
| Provenance.GenesisAllots | src/chain.c:439-470 | genesis gives listed accounts their balance and stake, the pool its seed, and nobody else anything |
| Ownership.OnlyItsOwnerSpends | src/state.c:373-576 | on every reachable chain a balance falls only with its owner's signature, and a stake only with it or with evidence of a double vote |
| Ownership.LeaderIsPaid | src/chain.c:1082-1085 | the leader gets the reward and the sum of tip times gas, the pool pays the reward, nobody else changes |
| Ownership.TipsAddUp | src/chain.c:1060-1066 | the tips of a block are the wrapped sum over its transactions |
| Ownership.OthersOnlyGive | src/state.c:439-567 | somebody else's transaction can pay an account or destroy its stake with evidence, nothing else |
| Ownership.NamesStay | src/state.c:495-510 | a name appears only in a block with its owner's signed registration |
| Ownership.OwnerIsForever | src/state.c:178-195 | a registered name keeps its owner at every later height |
| ChainFacts.BlocksAreLinked | src/chain.c:990-995 | over every run blocks are hash-linked, heights consecutive, slots strictly rising |
| ChainFacts.FeeStepOverRuns | src/chain.c:1009-1030 | the base fee stays at least 1 and steps by at most an eighth, or one, plus the tolerance, from every fee below 2^63 |
| ChainFacts.BaseFeeStaysMinimal | src/chain.c:739-758 | with at most 4096 transactions a block the fee is 1 or 2 and gas stays below the target, for every height |
| ChainFacts.ExecGasBound | src/chain.c:1057-1066 | execution uses at most 1033 gas a transaction |
| ChainFacts.OneSeedPerEpoch | src/chain.c:628-667 | every block was validated under the seed the whole chain assigns to its epoch |
| ChainFacts.SeedIsFixedBefore | src/chain.c:636-653 | later blocks never change the seed of an epoch that has begun |
| ChainFacts.SeedOfEpoch | src/chain.c:661-666 | the seed of a later epoch is the hash of the proof in the last block before it |
| Provenance.SeedOfSlot | src/chain.c:423-431 | the seed of a draw in every slot: from the network parameters in the first 7200 slots, later from the last proof before the epoch |
| Nonces.NoncesCount | src/state.c:396-440 | over every run an account's nonce is the number of its committed transactions, modulo 2^64 |
| Nonces.NoncesInSequence | src/state.c:399-402 | the committed nonces of each sender are 0, 1, 2, ... in order |
| Nonces.NoReplay | src/state.c:399-402 | no two committed transactions have the same content |
| Nonces.IndexAnswersLikeAScan | src/chain.c:207-235 | on every reachable chain the index lists exactly the committed transactions with their places |
| Nonces.LookupIsUnique | src/chain.c:223-235 | a transaction hash occurs at one place only |
| Nonces.IndexIsScan | src/chain.c:394-417 | the incrementally kept index equals the one rebuilt from the stored blocks |
| Liveness.LiveMapIsLatest | src/chain.c:335-347 | with at most 256 participants each has one entry, its latest signing height |
| Liveness.LiveMapIsDistinct | src/chain.c:335-347 | no address ever has two entries |
| Liveness.RestartKeepsLiveWeight | src/chain.c:405-412 | from height 16 on, the rebuilt map gives the same live weight as the incremental one |
| Restart.EarlyRestartKeepsIff | src/chain.c:349-379 | below height 16 a restart keeps the live weight if and only if the silent genesis validators weigh nothing, or are the whole total while nobody who signed weighs anything |
| Restart.EarlyRestartForgetsGenesis | src/chain.c:394-417 | once somebody with weight has signed, a restart below height 16 lowers the live weight by exactly the weight of the silent genesis validators |
| Restart.EarlyMembers | src/chain.c:405-412 | below height 16 the rebuilt map holds exactly who signed, the kept one also the silent genesis validators |
| Emission.BlockConservesIffPoolCovers | src/chain.c:1057-1085 | a block of conserving transactions lowers the supply by burns and unrewarded slashed parts alone, if and only if the pool covers the reward |
| Emission.PayLeaderSupply | src/chain.c:1082-1085 | reward and tips move the supply by the tips alone if and only if the pool covers the reward |
| RewardPool.PoolOutlivesEmission | src/chain.c:729-737 | over every run that sends nothing from the pool and never wraps it, up to height 1.4 billion the pool holds at least its seed minus all rewards |
| RewardPool.PoolKeptIffCreditFits | src/state.c:452-468 | somebody else's transaction does not lower the pool's balance if and only if its transfer to the pool, if it is one, fits 64 bits |
| RewardPool.SupplyNeverExceedsGenesis | src/chain.c:1057-1085 | with covered fees and no self-slash on top, the supply never exceeds the genesis supply |
| RewardPool.DebitNeverClamps | src/state.c:135-141 | the reward debit of each such block is paid in full |
| Emission.OthersNeverLose | src/state.c:439-567 | a transaction never lowers the balance of anybody but its sender |
| RewardPool.PoolCanWrap | src/state.c:465-466 | a sender holding almost 2^64 can pay the pool until its balance wraps to zero |
| Agreement.BuiltBlocksAreAccepted | src/chain.c:1156-1270 | a block built on any reachable chain for a later slot that is not early is accepted once it carries a valid certificate |
| Agreement.KeptExecutesAlike | src/chain.c:1203-1212 | skipping failed candidates equals executing only the kept ones |
| Agreement.KeptIffItExecutes | src/chain.c:1203-1212 | each of at most 4096 candidates is kept if and only if it is signed and the state reached so far includes it |
| Agreement.BuiltBlockIs | src/chain.c:1214-1270 | the header and transactions of a built block, and that only stake is needed to build |
| Agreement.SelectionNearLimit | src/chain.c:1203-1212 | however many candidates there are, the kept ones use no more gas than the limit and one surcharge |
| Agreement.GasNeverSkips | src/chain.c:1205 | among 4096 candidates the gas limit turns no includable transaction away |
| ChainStore.LiveChain.constructor | src/chain.c:439-497 | genesis gives the genesis chain: pool, allocations, live map, block |
| ChainStore.LiveChain.Reopen | src/chain.c:503-547 | reopening gives the stored blocks, the snapshot's ledger, the rebuilt live map and index |
| ChainStore.LiveChain.Rebuild | src/chain.c:394-417 | the index of all stored blocks and the live map of the last window |
| ChainStore.LiveChain.AcceptBlock | src/chain.c:973-1150 | the verdict and the new chain of the specification; any other verdict leaves ledger rows, tip, live map and index untouched |
| ChainStore.LiveChain.BuildBlock | src/chain.c:1156-1270 | the specified block, with the state executed on put back exactly |
| ChainStore.LiveChain.CheckHeader | src/chain.c:973-1030 | every check before execution, in order, with the stored tip fields standing for the last block |
| ChainStore.LiveChain.CheckBody | src/chain.c:1032-1112 | gas, roots and certificate, against stakes captured before execution |
| ChainStore.LiveChain.ValidateCommit | src/chain.c:910-971 | succeeds exactly on certificates the specification allows |
| ChainStore.LiveChain.Execute | src/chain.c:1054-1066 | in-place execution equals the functional one and stops at the first failure |
| ChainStore.LiveChain.Rollback | src/chain.c:1067-1071 | deserializing the snapshot restores both tables row for row |
| ChainStore.LiveChain.Seed | src/chain.c:674-684 | the cached seed equals recomputation after any interleaving of lookups and accepts |
| ChainStore.LiveChain.ComputeSeed | src/chain.c:628-672 | the downward scan finds the specified seed |
| ChainStore.LiveChain.LiveRecordSigner | src/chain.c:335-347 | raises the signer's entry, or appends one while there is room |
| ChainStore.LiveChain.LiveSqrtStake | src/chain.c:362-379 | the live weight, or the total when no live validator has stake |
| ChainStore.LiveChain.TotalSqrtStake | src/chain.c:690-718 | the total weight modulo 2^64 |
| ChainStore.LiveChain.TxFind | src/chain.c:223-235 | an entry with the hash if and only if one was indexed; the chain is unchanged |
| TxIndex.Index.Find | src/chain.c:217-235 | sort on demand and search in halves find an entry exactly when one was added |
| TxIndex.Search | src/chain.c:229-231 | binary search on a sorted index finds a match exactly when there is one |
| StateStore.Store.Get | src/state.c:83-90 | the account and whether it is stored |
| StateStore.Store.Set | src/state.c:96-118 | the tables stay sorted and stand for the updated map; empty accounts disappear |
| StateStore.Store.NameLookup | src/state.c:147-165 | the owner of a name, if it has one |
| StateStore.Store.NameRegister | src/state.c:178-195 | succeeds exactly on valid free names and adds one binding |
| StateStore.Store.Credit | src/state.c:128-133 | adds to one balance modulo 2^64 |
| StateStore.Store.Debit | src/state.c:135-141 | subtracts, clamping at zero |
| StateStore.Store.ApplyTx | src/state.c:373-576 | in-place execution with the sender written last equals the specified transition and receipt |
| Admission.IncludedIffNothingFails | src/state.c:380-437 | a transaction is included if and only if none of nine conditions fails; otherwise nothing changes and the first one is the reason given |
| Admission.GuardIsOverflow | src/state.c:417-421 | the division guard is the overflow test |
| Admission.SucceedsIffRuns | src/state.c:450-544 | an included transaction takes effect if and only if its kind's conditions hold; the gas it is charged, exactly |
| Admission.ReceiptIs | src/state.c:548-567 | base fee, name fee and tip as the receipt reports them |
| Admission.IncludedIsCurrent | src/state.c:380-392 | inclusion means version 1, this chain, not expired and a known kind |
| StateStore.Store.Root | src/state.c:201-258 | the root depends on the two maps only |
| Roots.RootInputDetermines | src/state.c:201-258 | two states have one root input if and only if they are equal, whenever they have equally many accounts or no address starts with 0xFF |
| Roots.SeparatorCanBeMistaken | src/state.c:240-252 | without that condition two different states share a root input |
| Roots.RootDetermines | src/state.c:201-258 | equal state roots mean equal accounts and names unless the inputs collide |
| Roots.HeaderPinsState | src/chain.c:1072-1100 | stored blocks that state the same root, on any chains, lead to the same accounts and names |
| StateStore.Store.Serialize | src/state.c:267-297 | the snapshot bytes |
| StateStore.Store.Deserialize | src/state.c:299-344 | success and both tables, also what a failed restore leaves behind |
| Table.Lookup | src/state.c:60-70 | binary search finds the key or its insertion point |
| Table.InsertRefines | src/state.c:110-117 | inserting at the gap keeps the order and adds one binding |
| Table.RemoveRefines | src/state.c:99-103 | removing a row keeps the order and drops one binding |
| Table.Canonical | src/state.c:60-118 | equal maps have identical sorted tables |
| Snapshots.RestoreSnapshot | src/state.c:267-344 | restoring a snapshot gives the tables back, over any earlier content |
| Snapshots.SnapshotOfRestored | src/state.c:299-344 | a snapshot that restores is the snapshot of what it restores to |
| Snapshots.TablesAreCanonical | src/state.c:201-258 | two states with equal maps have identical snapshots and root input |
| Ledgers.ApplyKeepsValid | src/state.c:92-118 | one transaction stores no empty account and no invalid name |
| ChainFacts.LedgerStaysValid | src/state.c:92-118 | over every run no empty account and no invalid name is stored |
| Ledgers.NonceStep | src/state.c:399-440 | inclusion uses and advances the sender's nonce and touches no other, in all aliasing cases |
| Ledgers.GasBound | src/state.c:404-413 | an included transaction is charged at most 1033 gas |
| Ledgers.FeeSplit | src/state.c:548-560 | the two wrapped fees add up to gas times price, or one wrap more when the price wrapped |
| Ledgers.FailedBodyCostsOnlyFees | src/state.c:547-572 | a failed body changes only the sender's nonce and takes exactly the fee |
| Effects.TransferMoves | src/state.c:452-468 | every account and name after a transfer |
| Effects.StakeMoves | src/state.c:469-494 | every account and name after bonding and unbonding |
| Effects.RegisterOwns | src/state.c:495-510 | every account and name after a registration |
| Effects.SlashTouches | src/state.c:511-540 | every account and name after a slash, including self-slashing |
| Conservation.ConservedIffConserving | src/state.c:373-576 | the supply falls by exactly burn, tip and unrewarded slashed part if and only if the transaction pays somebody else, slashes somebody else and covers its fees |
| Conservation.SupplyAfter | src/state.c:439-567 | the supply after an included transaction in every case, with the exact drift |
| Conservation.SupplyFalls | src/state.c:547-567 | with covered fees and no self-slash the supply only falls |
| Conservation.CoveredAutomatically | src/state.c:434-437 | transfers, unbonding, slashing and failed bodies always cover their fees when the price does not wrap |
| Conservation.BondingAllLeavesFeesUnpaid | src/state.c:552-557 | bonding the whole balance pays no fee but reports the tip |
| Conservation.WrappedPriceIsFree | src/state.c:416-422 | a price per gas that wraps to zero is free and still pays out the tip |
| Conservation.SelfPaymentBurns | src/state.c:463-466 | a self-transfer destroys its amount |
| Market.FeeStepIsBounded | src/chain.c:739-758 | the EIP-1559 step keeps its bounds, floor and direction if and only if the fee reads as a positive signed word or the gas used is exactly the target |
| Market.MoveIsExactIff | src/chain.c:745-752 | the fee moves by an eighth scaled by the gas difference, at least one, if and only if the product fits a word |
| Market.FeeFollowsTheRule | src/chain.c:739-758 | while nothing wraps, the next fee is the one of section 8.2 of PROTOCOL.md |
| Market.RewardSumClosed | src/chain.c:729-737 | the emission of both phases in closed form |
| Market.SeedCoversEmission | src/chain.c:445 | the seed pays all rewards up to height 1.4 billion |
| Isqrt.IsqrtU64 | src/common.c:210-232 | terminates with the exact floor root of every word, with no intermediate overflow |
| Isqrt.SqrtFits | src/common.c:210-232 | the root of a word fits 32 bits |
| Priority.NeverWraps | src/consensus.c:299-305 | the two-halves division never wraps for any score and nonzero weight |
| Priority.QuotientIsClose | src/consensus.c:299-305 | never above the exact 128-bit quotient and within the weight minus one of it |
| Priority.QuotientIsMonotone | src/consensus.c:299-305 | a lower score never gets a higher priority value |
| Priority.PriorityOrder | src/consensus.c:326-329 | byte comparison of priorities is comparison of the quotients |
| Words.LessIsNumeric | src/common.h:33-38 | on equal lengths byte order is numeric order of the big-endian values |
| Words.Rd64Be64 | src/common.h:58-82 | reading a written word gives it back |
| Codec.TxRoundTrip | src/codec.c:160-199 | decoding an encoded transaction gives it back |
| Codec.TxReencode | src/codec.c:178-199 | a buffer the decoder takes is the encoding of its result |
| Codec.WindowIsExact | src/codec.c:364-389 | the length walker finds exactly the window the encoder wrote, whatever follows |
| Codec.SignableInjective | src/codec.c:141-158 | signable bytes determine every unsigned field |
| Codec.HeaderRoundTrip | src/codec.c:232-268 | decoding an encoded header gives it back |
| Codec.BlockRoundTrip | src/codec.c:311-413 | decoding an encoded block within the limits gives it back |
| Codec.BlockReencode | src/codec.c:347-413 | a decoded block meets the limits and re-encodes to exactly the consumed bytes |
| Layouts.HeaderLayout | src/codec.c:232-248 | every field of a header at its byte offset |
| Layouts.TransactionLayout | src/codec.c:160-176 | every field of a transaction at its byte offset |
| Layouts.EvidenceLayout | src/codec.c:99-107 | every field of equivocation evidence at its byte offset |
| Layouts.SignerLayout | src/codec.c:333-340 | every field of a certificate entry at its byte offset |
| Layouts.SignersLayout | src/codec.c:333-340 | entry i of a certificate starts at byte 160 i |
| Layouts.BlockLayout | src/codec.c:311-345 | header, transactions, signer count and signers of a block |
| Codec.SlashRoundTrip | src/codec.c:99-119 | evidence survives the wire, and one body has one encoding |
| Codec.NameRoundTrip | src/codec.c:81-97 | a valid name survives the wire |
| Codec.HashPinsContent | src/codec.c:272-299 | blocks with one hash have one content unless hashed strings collide |
| CodecCursors.EncodeBlock | src/codec.c:311-345 | the buffer always suffices, so encoding never fails and writes exactly the block's bytes |
| CodecCursors.DecodeBlock | src/codec.c:347-413 | the block and the consumed length, or failure, as specified |
| CodecCursors.DecodeTx | src/codec.c:178-199 | the transaction that fills the buffer exactly, or failure |
| CodecCursors.GetTx | src/codec.c:379-392 | length walk, window and transaction |
| CodecCursors.Writer.Put | src/codec.c:13-17 | the buffer holds all chunks asked for, or the error flag says they did not fit |
| CodecCursors.Reader.Get | src/codec.c:26-30 | the next bytes, or a sticky error |
| Pool.StepsKept | src/mempool.c:61-195 | after any operations: tips non-increasing, hashes and sender-nonce pairs distinct, at most 8192 entries |
| PoolRules.LookedAtIff | src/mempool.c:88-108 | the pool looks further at a transaction if and only if it is signed, for this chain, unexpired, next in line, with gas and funds |
| PoolRules.PoolAgreesWithLedger | src/mempool.c:88-108 | at the minimum base fee and without wraps, that is so if and only if it is signed and the ledger would include it |
| PoolRules.PoolStaysGenuine | src/mempool.c:84-151 | after any operations every pooled transaction is signed, for this chain and was unexpired when it came |
| PoolRules.OnlyOutbidLeave | src/mempool.c:110-150 | an offer removes only an entry it strictly outbids, its rival or the last of a full pool; a refusal changes nothing |
| PoolRules.ReplacedIffHigher | src/mempool.c:113-128 | a bid for a held sender and nonce is taken if and only if it tips strictly more |
| PoolRules.RemoveKeepsOthers | src/mempool.c:161-170 | removal keeps every other entry |
| Pool.PoolIsBestOffered | src/mempool.c:84-151 | eligible, distinct offers leave exactly the first 8192 of the stable descending-tip sort of all offered |
| Pool.StableSortUnique | src/mempool.c:60-74 | there is one stable sort |
| Pool.UnexpiredIsSublist | src/mempool.c:180-195 | pruning keeps exactly the unexpired entries, in order |
| PoolUse.PurgedAreGone | src/consensus.c:446-451 | after a commit none of the block's transactions is left in the pool and nothing was added |
| PoolUse.PurgeKeepsTheRest | src/consensus.c:446-451 | transactions that were not in the block stay in the pool |
| PoolUse.NodePoolStaysKept | src/consensus.c:663-668 | over every run of a node its pool keeps its invariant and holds only genuine transactions |
| Mempool.TxPool.Add | src/mempool.c:84-151 | all checks in order, replacement, eviction and insertion as specified |
| Mempool.TxPool.Insert | src/mempool.c:61-82 | insertion after every entry with at least the same tip, growing the array as needed |
| Mempool.TxPool.Has | src/mempool.c:153-159 | whether the pool holds the hash |
| Mempool.TxPool.Remove | src/mempool.c:161-170 | removes the entry with the hash |
| Mempool.TxPool.PruneExpired | src/mempool.c:180-195 | the two-index pass is the order-preserving filter |
| Mempool.TxPool.Snapshot | src/mempool.c:197-203 | the first transactions, highest tip first |

## Left out

- src/net.c, src/rpc.c, src/node.c, src/main.c: sockets, threads, HTTP and the command line.
- src/crypto.c: the primitives are arbitrary deterministic functions; a node's own VRF proofs are taken to verify.
- The leader and committee thresholds in long double arithmetic: opaque predicates of the draw, the weights and the number of validators.
- Files: reading and writing blocks, state and meta never fails, and nothing is claimed about a crash between the three writes (src/chain.c:1116-1125). Allocation never fails.
- Clock and sleeping: phases run at arbitrary moments, and each step reads the clock once.
- Restart of a voting node: the vote lock is not persisted by the code, so run theorems about votes are without restart.
- The vote's wire codec (src/consensus.c:250-278).
- The address-history index and the top-account lists (src/chain.c:244-329, 559-602).
- Signed 64-bit overflow in the timestamp window and the fee step is undefined in C and taken as unbounded here.
- Heaviest-chain fork choice, the unbonding cooldown and the active-set delay of PROTOCOL.md: not in the code.
- ChainStore.LiveChain.AcceptBlock: asks for at most 256 signers, which the decoder guarantees, and fewer than 2^32 rows in each table, which the 32-bit counts of a snapshot can hold; `BuildBlock` and the methods of `Consensus` ask the same.
- StateStore.Store.Set: rebuilds the sequence of rows; moving rows within one buffer is not modelled, nor is it for names and for the transaction index.
- RewardPool.PoolOutlivesEmission: asks that genesis allots nothing to the pool's address, that no transaction is sent from it and that no transfer wraps its balance; `RewardPool.PoolKeptIffCreditFits` and `RewardPool.PoolCanWrap` show that this is exactly what is needed of each transaction.
- ChainFacts.FeeStepOverRuns: asks that the fee before is below 2^63, the exact condition of `Market.FeeStepIsBounded`; `ChainFacts.BaseFeeStaysMinimal` shows that it is 1 or 2 with at most 4096 transactions a block.
- SplitExample.TheNetworkSplits: hashing and signing are small stand-ins, chosen so that the inputs can be written out.
- Ownership.OnlyItsOwnerSpends: asks that what the block may add to the balance fits a word, since a wrapped credit lowers it; `RewardPool.PoolCanWrap` shows such a credit.
- Conviction.ConvictedIffMoved: asks that a signature made by the key passes as a vote only for its own message, and that evidence is made of signatures of that key.
- Rounds.HonestRoundCommits: is about transactions that leave the stakes alone; `Network.BondRaisesItsOwnBar` is why.
- Liveness.LiveMapIsLatest: asks for at most 256 participants, the size of the map.
- TxIndex.Index.Find: which of several entries with one hash is returned is left open, as with `qsort` and `bsearch`; `Nonces.LookupIsUnique` shows there is only one.
