/**
 A round of the protocol makes progress: proposal, votes, seal (src/consensus.c:474-651, 657-809;
 section 6.5 of PROTOCOL.md).
 */
module Rounds {
  import opened Words
  import opened Types
  import opened Codec
  import opened Ledgers
  import opened Snapshots
  import opened Quorum
  import opened Chains
  import opened Agreement
  import opened Liveness
  import opened Voting
  import opened Network
  import opened TwoVotes
  import opened Commits
  import opened Phases
  import opened Split

  // ---------------------------------------------------------------------------
  // A proposal and its valid votes
  // ---------------------------------------------------------------------------

  lemma {:induction false} KeptAreCandidates(cr: Crypto, l: Ledger, candidates: seq<Tx>, slot: U64, baseFee: U64)
    ensures forall tx :: tx in Select(cr, l, candidates, slot, baseFee).kept ==> tx in candidates
  {
    hide ApplyTx, TxVerify, TotalGas;
    if candidates != [] {
      KeptAreCandidates(cr, l, candidates[..|candidates| - 1], slot, baseFee);
    }
  }

  /** A chain that a node can be on, within the sizes the wire format allows. */
  ghost predicate Reasonable(cr: Crypto, g: Genesis, offers: seq<Offer>) {
    var c := Run(cr, g, offers);
    && DistinctGenesis(g) && |c.blocks| < W64 && |c.ledger.accounts| < W32
    && forall h :: 1 <= h < |c.blocks| ==> |c.blocks[h].txs| <= BLOCK_MAX_TXS
  }

  /** The block a leader builds for a later slot from transactions that leave the stakes alone. */
  ghost predicate Proposed(cr: Crypto, c: Chain, kp: KeyPair, slot: U64, candidates: seq<Tx>, b: Block)
    requires c.blocks != []
  {
    && |candidates| <= SNAPSHOT_MAX && SignsCorrectly(cr, kp) && slot > Tip(c).slot && |c.blocks| < W64
    && (forall i :: 0 <= i < |candidates| ==> NoStakeChange(candidates[i]))
    && BuildBlock(cr, c, slot, kp, candidates) == Some(b)
  }

  lemma ProposedShape(cr: Crypto, c: Chain, kp: KeyPair, slot: U64, candidates: seq<Tx>, b: Block)
    requires c.blocks != [] && Proposed(cr, c, kp, slot, candidates, b)
    ensures b.signers == [] && b.header.version == 1 && b.header.slot == slot > 0 && b.header.height == |c.blocks|
    ensures Welcome(cr, c, b.header) && Proposal(cr, c, b)
    ensures forall i :: 0 <= i < |b.txs| ==> NoStakeChange(b.txs[i])
  {
    hide Select, StateRoot, TxRoot, PayLeader, SeedFor, BlockHash, ExpectedBaseFee, SlotTime, NoStakeChange;
    KeptAreCandidates(cr, c.ledger, candidates, slot, ExpectedBaseFee(c));
    var kept := Select(cr, c.ledger, candidates, slot, ExpectedBaseFee(c)).kept;
    forall i | 0 <= i < |kept| ensures NoStakeChange(kept[i]) {
      assert kept[i] in candidates;
    }
    SelectIsShort(cr, c.ledger, candidates, slot, ExpectedBaseFee(c));
  }

  /** Every entry is a valid vote for `b` by somebody drawn on `c`. */
  ghost predicate ValidVotes(cr: Crypto, c: Chain, b: Block, ss: seq<Signer>)
    requires c.blocks != []
  {
    SignersOk(cr, SeedFor(cr, c, b.header.slot), c.ledger, b.(signers := ss))
  }

  predicate Late(c: Chain, slot: U64, now: U64) {
    SlotTime(c, slot) <= (now + 1500) % W64
  }

  /** Any valid votes with the weight make the proposal a block that every node on this chain accepts. */
  lemma VotedIsAccepted(cr: Crypto, g: Genesis, offers: seq<Offer>, kp: KeyPair, slot: U64, candidates: seq<Tx>,
      b: Block, ss: seq<Signer>, now: U64)
    requires Reasonable(cr, g, offers)
    requires var c := Run(cr, g, offers);
      && Proposed(cr, c, kp, slot, candidates, b) && ValidVotes(cr, c, b, ss) && ThresholdMet(c, ss)
      && Late(c, slot, now)
    ensures BlockVerdict(cr, Run(cr, g, offers), b.(signers := ss), now) == Ok
  {
    hide Run, BuildBlock, ThresholdMet, SignersOk, CommitOk, PostLedger, SeedFor, SlotTime, BlockVerdict, DistinctLive,
      SignsCorrectly, NoStakeChange, SameStakes, Grown;
    var c, full := Run(cr, g, offers), b.(signers := ss);
    ProposedShape(cr, c, kp, slot, candidates, b);
    RunIsReplay(cr, g, offers);
    ReplayOf(cr, g, c);
    LiveMapIsDistinct(cr, g, c.blocks);
    PlainBlocksKeepStakes(cr, c.ledger, full);
    SealingAgreesWithValidation(cr, c, full);
    BuiltBlocksAreAccepted(cr, g, offers, slot, kp, candidates, ss, now);
  }

  lemma ReplayOf(cr: Crypto, g: Genesis, c: Chain)
    requires Grown(cr, g, c)
    ensures c == Replay(cr, g, c.blocks)
  {
  }

  // ---------------------------------------------------------------------------
  // A node that collects votes
  // ---------------------------------------------------------------------------

  /** Only the first entry of the ring is in use. */
  predicate OneHeld(n: Node, hash: Hash) {
    && Sized(n) && n.pending[0].Held? && n.pending[0].hash == hash
    && forall j :: 1 <= j < RING ==> n.pending[j].Free?
  }

  /** The proposal `b` is undecided, with the votes `ss` listed for it. */
  ghost predicate Waits(cr: Crypto, n: Node, c: Chain, b: Block, ss: seq<Signer>) {
    && OneHeld(n, BlockHash(cr, b.header)) && n.chain == c
    && !n.pending[0].committed && n.pending[0].block == b && n.pending[0].signers == ss
  }

  /** The chain has grown by `b`, certified by the first votes. */
  ghost predicate Has(cr: Crypto, n: Node, c: Chain, b: Block, ss: seq<Signer>) {
    && OneHeld(n, BlockHash(cr, b.header)) && n.pending[0].committed
    && exists k :: 0 <= k <= |ss| && n.chain == Extend(cr, c, b.(signers := ss[..k]))
  }

  /** Every certificate that the votes may add up to is accepted at `now`. */
  ghost predicate Acceptable(cr: Crypto, c: Chain, b: Block, ss: seq<Signer>, now: U64)
    requires c.blocks != []
  {
    forall k :: 0 <= k <= |ss| && ThresholdMet(c, ss[..k]) ==>
      BlockVerdict(cr, c, b.(signers := ss[..k]), now) == Ok
  }

  lemma AttemptProgresses(cr: Crypto, n: Node, c: Chain, b: Block, ss: seq<Signer>, k: nat, force: bool, now: U64)
    requires k <= |ss| && c.blocks != [] && Waits(cr, n, c, b, ss[..k]) && Acceptable(cr, c, b, ss, now)
    ensures var r := TryCommit(cr, n, 0, force, now);
      Waits(cr, r, c, b, ss[..k]) || Has(cr, r, c, b, ss)
    ensures force && ThresholdMet(c, ss[..k]) ==> Has(cr, TryCommit(cr, n, 0, force, now), c, b, ss)
  {
    hide TryCommit, ThresholdMet, BlockVerdict, Extend, InGrace, BlockHash;
    GrowsIffRipe(cr, n, 0, force, now);
    KeepsSigners(cr, n, 0, force, now);
    var r := TryCommit(cr, n, 0, force, now);
    if Ripe(cr, n, 0, force, now) {
      assert r.chain == Extend(cr, c, b.(signers := ss[..k]));
      assert Has(cr, r, c, b, ss);
    } else {
      UnripeStaysUndecided(cr, n, 0, force, now);
    }
  }

  lemma UnripeStaysUndecided(cr: Crypto, n: Node, i: nat, force: bool, now: U64)
    requires Sized(n) && i < RING && n.pending[i].Held? && !n.pending[i].committed
    requires !Ripe(cr, n, i, force, now)
    requires ThresholdMet(n.chain, n.pending[i].signers) ==>
      BlockVerdict(cr, n.chain, Gathered(n.pending[i]), now) == Ok
    ensures TryCommit(cr, n, i, force, now).pending[i].Held? && !TryCommit(cr, n, i, force, now).pending[i].committed
  {
    hide ThresholdMet, BlockVerdict, InGrace, Accept;
  }

  lemma ListsPrefix(ss: seq<Signer>, k: nat)
    requires DistinctSigners(ss) && k < |ss|
    ensures !Lists(ss[..k], ss[k].signer)
  {
    var addrs := SignerAddrs(ss);
    forall i | 0 <= i < k ensures ss[..k][i].signer != ss[k].signer {
      assert addrs[i] != addrs[k];
    }
  }

  /** The next vote is listed, or was not needed any more. */
  lemma VoteProgresses(cr: Crypto, n: Node, c: Chain, b: Block, ss: seq<Signer>, k: nat, now: U64)
    requires k < |ss| <= COMMITTEE_MAX && DistinctSigners(ss) && c.blocks != [] && ValidVotes(cr, c, b, ss)
    requires Acceptable(cr, c, b, ss, now)
    requires Waits(cr, n, c, b, ss[..k]) || Has(cr, n, c, b, ss)
    ensures var r := HandleVote(cr, n, b.header.height, BlockHash(cr, b.header), ss[k], now);
      Waits(cr, r, c, b, ss[..k + 1]) || Has(cr, r, c, b, ss)
  {
    hide TryCommit, BlockHash, VoteOk, SeedFor, HandleVote, Acceptable, Has, DistinctSigners, SignerOk, Lists;
    if Waits(cr, n, c, b, ss[..k]) {
      FindIs(n.pending, BlockHash(cr, b.header), 0);
      var p := n.pending[0];
      ValidVoteIff(cr, c, p, b.header.height, ss[k]);
      assert b.(signers := ss).signers[k] == ss[k];
      ListsPrefix(ss, k);
      CountedVote(cr, n, 0, b.header.height, ss[k], now);
      assert ss[..k + 1] == ss[..k] + [ss[k]];
      AttemptProgresses(cr, WithVote(n, 0, ss[k]), c, b, ss, k + 1, false, now);
    } else {
      CommittedStays(cr, n, c, b, ss, ss[k], now);
    }
  }

  lemma CommittedStays(cr: Crypto, n: Node, c: Chain, b: Block, ss: seq<Signer>, s: Signer, now: U64)
    requires Has(cr, n, c, b, ss)
    ensures Has(cr, HandleVote(cr, n, b.header.height, BlockHash(cr, b.header), s, now), c, b, ss)
  {
    hide BlockHash, VoteOk, Extend, Lists, AddSigner, ThresholdMet, BlockVerdict, InGrace;
    FindIs(n.pending, BlockHash(cr, b.header), 0);
  }

  // ---------------------------------------------------------------------------
  // The round
  // ---------------------------------------------------------------------------

  /** The proposal, then the votes one after the other, each at its own moment. */
  function Hearing(b: Block, hash: Hash, ss: seq<Signer>, times: seq<U64>): (es: seq<Event>)
    requires |times| > |ss|
    ensures |es| == |ss| + 1 && es[0] == BlockIn(b, times[0])
    ensures forall i :: 0 <= i < |ss| ==> es[i + 1] == VoteIn(b.header.height, hash, ss[i], times[i + 1])
  {
    [BlockIn(b, times[0])] +
    seq(|ss|, i requires 0 <= i < |ss| => VoteIn(b.header.height, hash, ss[i], times[i + 1]))
  }

  /** Everything one round needs of the proposal, the votes and the moments they arrive at. */
  ghost predicate GoodRound(cr: Crypto, c: Chain, b: Block, ss: seq<Signer>, times: seq<U64>)
    requires c.blocks != []
  {
    && Proposal(cr, c, b) && ValidVotes(cr, c, b, ss) && DistinctSigners(ss) && |ss| <= COMMITTEE_MAX
    && |times| == |ss| + 2 && forall i :: 0 <= i < |times| ==> Acceptable(cr, c, b, ss, times[i])
  }

  lemma HearsProposal(cr: Crypto, kw: KeyPair, validator: bool, c: Chain, b: Block, ss: seq<Signer>, now: U64)
    requires c.blocks != [] && Proposal(cr, c, b) && Acceptable(cr, c, b, ss, now)
    ensures var r := HandleBlock(cr, Start(kw, validator, c), b, now);
      Waits(cr, r, c, b, []) || Has(cr, r, c, b, ss)
  {
    hide TryCommit, PriorityOf, NoteProposal, BlockHash, Acceptable, Has, SeedFor, VrfVerify;
    var n := Start(kw, validator, c);
    FreeIs(n.pending, 0);
    StashHolds(cr, n, b, now);
    NewProposal(cr, n, b, now);
    var (m, i) := Stash(cr, n, b, now);
    assert ss[..0] == [];
    assert b.(signers := []) == b;
    AttemptProgresses(cr, m, c, b, ss, 0, false, now);
  }

  lemma HearingIsBounded(b: Block, hash: Hash, ss: seq<Signer>, times: seq<U64>, k: nat)
    requires |times| > |ss| && b.signers == [] && k <= |ss| + 1
    ensures AllBounded(Hearing(b, hash, ss, times)[..k])
  {
    var es := Hearing(b, hash, ss, times);
    forall i | 0 <= i < k ensures Bounded(es[..k][i]) {
      if i > 0 {
        assert es[(i - 1) + 1] == VoteIn(b.header.height, hash, ss[i - 1], times[(i - 1) + 1]);
      }
    }
  }

  lemma {:induction false} HearsVotes(cr: Crypto, kw: KeyPair, validator: bool, c: Chain, b: Block, ss: seq<Signer>,
      times: seq<U64>, k: nat)
    requires c.blocks != [] && GoodRound(cr, c, b, ss, times) && k <= |ss|
    ensures AllBounded(Hearing(b, BlockHash(cr, b.header), ss, times)[..k + 1])
    ensures var r := Steps(cr, Start(kw, validator, c), Hearing(b, BlockHash(cr, b.header), ss, times)[..k + 1]);
      Waits(cr, r, c, b, ss[..k]) || Has(cr, r, c, b, ss)
  {
    hide HandleBlock, HandleVote, BlockHash, Acceptable, Has, Waits, ValidVotes, DistinctSigners, Hearing, Start,
      AllBounded, Welcome;
    var hash, n := BlockHash(cr, b.header), Start(kw, validator, c);
    var es := Hearing(b, hash, ss, times);
    HearingIsBounded(b, hash, ss, times, k + 1);
    HearingIsBounded(b, hash, ss, times, k);
    assert es[..k + 1][..k] == es[..k] && es[..k + 1][k] == es[k];
    if k == 0 {
      HearsProposal(cr, kw, validator, c, b, ss, times[0]);
      assert Steps(cr, n, es[..0]) == n;
    } else {
      HearsVotes(cr, kw, validator, c, b, ss, times, k - 1);
      var m := Steps(cr, n, es[..k]);
      assert es[(k - 1) + 1] == VoteIn(b.header.height, hash, ss[k - 1], times[(k - 1) + 1]);
      VoteProgresses(cr, m, c, b, ss, k - 1, times[k]);
    }
  }

  lemma SealSettles(cr: Crypto, n: Node, c: Chain, b: Block, ss: seq<Signer>, now: U64)
    requires c.blocks != [] && (Waits(cr, n, c, b, ss) || Has(cr, n, c, b, ss))
    requires Acceptable(cr, c, b, ss, now) && ThresholdMet(c, ss)
    ensures Has(cr, SealUpTo(cr, n, b.header.slot, RING, now), c, b, ss)
  {
    hide TryCommit, ThresholdMet, BlockVerdict, BlockHash, Acceptable, Has, SealUpTo;
    assert ss[..|ss|] == ss;
    if Waits(cr, n, c, b, ss) {
      RestIsSkipped(cr, n, 0, RING, now);
      AttemptProgresses(cr, n, c, b, ss, |ss|, true, now);
    } else {
      DecidedIsSkipped(cr, n, c, b, ss, b.header.slot, RING, now);
    }
  }

  lemma {:induction false} DecidedIsSkipped(cr: Crypto, n: Node, c: Chain, b: Block, ss: seq<Signer>, slot: U64, k: nat,
      now: U64)
    requires Has(cr, n, c, b, ss) && k <= RING
    ensures SealUpTo(cr, n, slot, k, now) == n
  {
    hide TryCommit, BlockHash, Extend, SealOne;
    if k > 0 {
      DecidedIsSkipped(cr, n, c, b, ss, slot, k - 1, now);
      SkipsOthers(cr, n, slot, k - 1, now);
    }
  }

  /**
   A new node that hears a proposal and then valid votes with enough weight, in any order of their signers
   and at any moments, has committed that proposal at the end of its slot.
   */
  lemma HeardVotesCommit(cr: Crypto, kw: KeyPair, validator: bool, c: Chain, b: Block, ss: seq<Signer>, times: seq<U64>)
    requires c.blocks != [] && GoodRound(cr, c, b, ss, times) && ThresholdMet(c, ss)
    ensures AllBounded(Hearing(b, BlockHash(cr, b.header), ss, times))
    ensures var n := Steps(cr, Start(kw, validator, c), Hearing(b, BlockHash(cr, b.header), ss, times));
      Has(cr, SealUpTo(cr, n, b.header.slot, RING, times[|ss| + 1]), c, b, ss)
  {
    hide BlockHash, Acceptable, Has, Waits, ValidVotes, DistinctSigners, Hearing, Start, AllBounded, Welcome,
      ThresholdMet, SealUpTo, Steps;
    var es := Hearing(b, BlockHash(cr, b.header), ss, times);
    HearsVotes(cr, kw, validator, c, b, ss, times, |ss|);
    assert es[..|ss| + 1] == es && ss[..|ss|] == ss;
    SealSettles(cr, Steps(cr, Start(kw, validator, c), es), c, b, ss, times[|ss| + 1]);
  }

  // ---------------------------------------------------------------------------
  // Honest validators
  // ---------------------------------------------------------------------------

  /** A validator that hears the proposal and then runs the vote phase of its slot. */
  function Duty(b: Block, heard: U64, now: U64): seq<Event> {
    [BlockIn(b, heard), Vote(b.header.slot, now)]
  }

  lemma ReadyForFirst(cr: Crypto, n: Node, kp: KeyPair, c: Chain, b: Block, heard: U64, sv: SlotVote)
    requires c.blocks != [] && Proposal(cr, c, b) && Height(c) + 1 < W64
    requires Holds(n, kp, c, [Entered(cr, c, b, heard)], [sv]) && sv.slot == b.header.slot && !sv.voted
    requires n.voteHeight == 0
    ensures HasChoice(n, b.header.slot) && Chosen(n) == 0 && n.pending[0] == Entered(cr, c, b, heard)
    ensures LockAt(n, 0) == PriorityOf(cr, c.ledger, b.header)
  {
    hide PriorityOf, BlockHash, Lowest, Less, Welcome;
    HeightOfProposal(cr, c, b) by { WelcomeHeight(cr, c, b); }
    PrefixAt(n.pending, [Entered(cr, c, b, heard)]);
    PrefixAt(n.slotVotes, [sv]);
    LowestHere(n.pending, Height(c) + 1, 0);
    SlotIs(n.slotVotes, b.header.slot, 0);
  }

  lemma WelcomeHeight(cr: Crypto, c: Chain, b: Block)
    requires c.blocks != [] && Proposal(cr, c, b)
    ensures b.header.height == Height(c) + 1
  {
  }

  /** Doing its duty, a drawn validator broadcasts exactly its entry for the proposal. */
  lemma DutyIsDone(cr: Crypto, kp: KeyPair, c: Chain, b: Block, heard: U64, now: U64)
    requires c.blocks != [] && Proposal(cr, c, b) && Height(c) + 1 < W64 && !ThresholdMet(c, [])
    requires ProofOf(cr, kp, c, b.header.slot).Some?
    ensures AllBounded(Duty(b, heard, now))
    ensures Steps(cr, Start(kp, true, c), Duty(b, heard, now)).votes ==
      [Ballot(b.header.height, BlockHash(cr, b.header), EntryFor(cr, kp, c, b), PriorityOf(cr, c.ledger, b.header))]
  {
    hide HandleBlock, VotePhase, ThresholdMet, Welcome, PriorityOf, BlockHash, OurEntry, Holds, HasChoice, Chosen,
      LockAt, CommitteeProof, Open, AddSigner;
    var es, n := Duty(b, heard, now), Start(kp, true, c);
    assert es[..1] == [BlockIn(b, heard)] && es[..1][..0] == [] && Steps(cr, n, []) == n;
    assert Steps(cr, n, es[..1]) == HandleBlock(cr, n, b, heard);
    StartHolds(kp, c);
    var sv := Receives(cr, n, kp, c, [], [], b, heard);
    var m := HandleBlock(cr, n, b, heard);
    assert [] + [Entered(cr, c, b, heard)] == [Entered(cr, c, b, heard)] && [] + [sv] == [sv];
    ReadyForFirst(cr, m, kp, c, b, heard, sv);
    VotesForItsChoice(cr, m, b.header.slot, now);
    HoldsBasics(m, kp, c, [Entered(cr, c, b, heard)], [sv]);
    SameDraw(cr, m, n, b.header.slot);
    SameEntry(cr, kp, c, b, heard);
  }

  lemma HoldsBasics(n: Node, kp: KeyPair, c: Chain, ps: seq<Pending>, vs: seq<SlotVote>)
    requires Holds(n, kp, c, ps, vs)
    ensures Sized(n) && n.kp == kp && n.chain == c
  {
  }

  /** What the round asks of its validators: different keys, drawn for the slot, and the weight to decide. */
  ghost predicate Quorate(cr: Crypto, c: Chain, b: Block, kps: seq<KeyPair>)
    requires c.blocks != []
  {
    && DistinctKeys(kps) && |kps| <= COMMITTEE_MAX
    && (forall i :: 0 <= i < |kps| ==> SignsCorrectly(cr, kps[i]) && ProofOf(cr, kps[i], c, b.header.slot).Some?)
    && ThresholdMet(c, Certificate(cr, kps, c, b))
  }

  lemma CertificateIsValid(cr: Crypto, c: Chain, b: Block, kps: seq<KeyPair>)
    requires c.blocks != [] && Quorate(cr, c, b, kps)
    ensures ValidVotes(cr, c, b, Certificate(cr, kps, c, b)) && DistinctSigners(Certificate(cr, kps, c, b))
  {
    hide SeedFor, TotalWeight, SignerOk, SignsCorrectly, ProofOf, EntryFor, BlockHash, VoteMessage, CommitteeAlpha,
      Certificate, ThresholdMet, DistinctSigners, DistinctKeys;
    CertificateIsClean(cr, kps, c, b);
    var ss := Certificate(cr, kps, c, b);
    forall i | 0 <= i < |ss|
      ensures SignerOk(cr, c.ledger, CommitteeAlpha(SeedFor(cr, c, b.header.slot), b.header.slot),
                       VoteMessage(b.header.height, BlockHash(cr, b.header)), TotalWeight(c.ledger) % W64, ss[i])
    {
      EntryIsOk(cr, kps[i], c, b);
    }
  }

  lemma {:induction false} VotesArePrefix(cr: Crypto, c: Chain, b: Block, ss: seq<Signer>, k: nat)
    requires c.blocks != [] && ValidVotes(cr, c, b, ss) && k <= |ss|
    ensures ValidVotes(cr, c, b, ss[..k])
  {
    hide SignerOk, SeedFor, TotalWeight, BlockHash, VoteMessage, CommitteeAlpha;
    var x, y := b.(signers := ss), b.(signers := ss[..k]);
    forall i | 0 <= i < k ensures y.signers[i] == x.signers[i] {
    }
  }

  lemma RoundIsGood(cr: Crypto, g: Genesis, offers: seq<Offer>, kp: KeyPair, slot: U64, candidates: seq<Tx>, b: Block,
      ss: seq<Signer>, times: seq<U64>)
    requires Reasonable(cr, g, offers)
    requires var c := Run(cr, g, offers);
      && Proposed(cr, c, kp, slot, candidates, b) && ValidVotes(cr, c, b, ss) && DistinctSigners(ss)
      && |ss| <= COMMITTEE_MAX && |times| == |ss| + 2 && forall i :: 0 <= i < |times| ==> Late(c, slot, times[i])
    ensures GoodRound(cr, Run(cr, g, offers), b, ss, times)
  {
    hide Run, Reasonable, Proposed, ValidVotes, DistinctSigners, Late, ThresholdMet, BlockVerdict, Proposal;
    var c := Run(cr, g, offers);
    ProposedShape(cr, c, kp, slot, candidates, b);
    forall i, k | 0 <= i < |times| && 0 <= k <= |ss| && ThresholdMet(c, ss[..k])
      ensures BlockVerdict(cr, c, b.(signers := ss[..k]), times[i]) == Ok
    {
      VotesArePrefix(cr, c, b, ss, k);
      VotedIsAccepted(cr, g, offers, kp, slot, candidates, b, ss[..k], times[i]);
    }
  }

  /**
   The protocol makes progress from every reachable chain. A leader proposes for a later slot, validators
   with enough weight do their duty, and every node that hears the proposal and their votes has committed
   the proposal by the end of the slot, certified by their votes alone.
   */
  lemma HonestRoundCommits(cr: Crypto, g: Genesis, offers: seq<Offer>, kp: KeyPair, slot: U64, candidates: seq<Tx>,
      b: Block, kps: seq<KeyPair>, kw: KeyPair, validator: bool, times: seq<U64>)
    requires Reasonable(cr, g, offers)
    requires var c := Run(cr, g, offers);
      && Proposed(cr, c, kp, slot, candidates, b) && Quorate(cr, c, b, kps)
      && |times| == |kps| + 2 && forall i :: 0 <= i < |times| ==> Late(c, slot, times[i])
    ensures var c := Run(cr, g, offers); var ss := Certificate(cr, kps, c, b); var hash := BlockHash(cr, b.header);
      && (forall i :: 0 <= i < |kps| ==> DoesItsDuty(cr, kps[i], c, b, times[0], times[i + 1], ss[i]))
      && AllBounded(Hearing(b, hash, ss, times))
      && var n := Steps(cr, Start(kw, validator, c), Hearing(b, hash, ss, times));
         Has(cr, SealUpTo(cr, n, slot, RING, times[|kps| + 1]), c, b, ss)
  {
    hide Run, Reasonable, Proposed, ThresholdMet, Certificate, Late, BlockHash, ProofOf, SignsCorrectly, Steps, Start,
      Has, ValidVotes, DistinctSigners, Hearing, AllBounded, EntryFor, GoodRound, DistinctKeys, SealUpTo, Proposal,
      DoesItsDuty;
    var c := Run(cr, g, offers);
    var ss := Certificate(cr, kps, c, b);
    ProposedShape(cr, c, kp, slot, candidates, b);
    CertificateIsValid(cr, c, b, kps);
    RoundIsGood(cr, g, offers, kp, slot, candidates, b, ss, times);
    HeardVotesCommit(cr, kw, validator, c, b, ss, times);
    assert Height(c) + 1 < W64 by { ProposedHeight(cr, c, kp, slot, candidates, b); }
    NobodyIsNotEnough(cr, g, offers);
    forall i | 0 <= i < |kps| ensures DoesItsDuty(cr, kps[i], c, b, times[0], times[i + 1], ss[i]) {
      DutyEntry(cr, kps[i], c, b, times[0], times[i + 1], ss[i]);
    }
  }

  /** Without a vote no proposal ever has the weight. */
  lemma NobodyIsNotEnough(cr: Crypto, g: Genesis, offers: seq<Offer>)
    requires Reasonable(cr, g, offers)
    ensures !ThresholdMet(Run(cr, g, offers), [])
  {
    hide Run, ThresholdMet, DistinctLive, DistinctGenesis, Grown;
    var c := Run(cr, g, offers);
    RunIsReplay(cr, g, offers);
    ReplayOf(cr, g, c);
    LiveMapIsDistinct(cr, g, c.blocks);
    NoneIsBelow(c);
  }

  lemma NoneIsBelow(c: Chain)
    requires c.blocks != [] && DistinctLive(c.live) && |c.ledger.accounts| < W32
    ensures !ThresholdMet(c, [])
  {
    hide LiveWeight, TotalWeight, WeightOf, DistinctLive;
    TotalWeightFits(c.ledger);
    LiveAtMostTotal(c.ledger, c.live, Height(c));
    assert SignerAddrs([]) == [];
    WeightOfNone(c.ledger);
  }

  lemma ProposedHeight(cr: Crypto, c: Chain, kp: KeyPair, slot: U64, candidates: seq<Tx>, b: Block)
    requires c.blocks != [] && Proposed(cr, c, kp, slot, candidates, b)
    ensures Height(c) + 1 < W64
  {
    hide BuildBlock;
  }

  /** Hearing the proposal and voting in its slot, the validator broadcasts one vote, with this entry. */
  ghost predicate DoesItsDuty(cr: Crypto, kp: KeyPair, c: Chain, b: Block, heard: U64, now: U64, s: Signer)
    requires c.blocks != []
  {
    && AllBounded(Duty(b, heard, now))
    && var votes := Steps(cr, Start(kp, true, c), Duty(b, heard, now)).votes;
      |votes| == 1 && votes[0].entry == s && votes[0].block == BlockHash(cr, b.header)
      && votes[0].height == b.header.height
  }

  lemma DutyEntry(cr: Crypto, kp: KeyPair, c: Chain, b: Block, heard: U64, now: U64, s: Signer)
    requires c.blocks != [] && Proposal(cr, c, b) && Height(c) + 1 < W64 && !ThresholdMet(c, [])
    requires ProofOf(cr, kp, c, b.header.slot).Some? && s == EntryFor(cr, kp, c, b)
    ensures DoesItsDuty(cr, kp, c, b, heard, now, s)
  {
    hide Steps, EntryFor, ProofOf, ThresholdMet, Proposal, AllBounded, PriorityOf, BlockHash;
    DutyIsDone(cr, kp, c, b, heard, now);
  }
}
