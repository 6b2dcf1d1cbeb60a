/**
 When a node commits, and how proposals and votes get it there (src/consensus.c:123-141, 391-651,
 801-809).
 */
module Commits {
  import opened Words
  import opened Types
  import opened Codec
  import Agreement
  import Ledgers
  import Pool
  import opened Quorum
  import opened Chains
  import opened Voting

  // ---------------------------------------------------------------------------
  // The clock
  // ---------------------------------------------------------------------------

  /** Slot `s` is current for the two seconds that start 2000 s milliseconds after genesis. */
  lemma SlotClock(genesisMs: U64, now: U64, s: nat)
    requires genesisMs <= now
    ensures CurrentSlot(genesisMs, now) == s <==> genesisMs + 2000 * s <= now < genesisMs + 2000 * s + 2000
  {
  }

  /** Sealing waits for 300 ms after the threshold was reached, but not beyond the slot after the proposal's. */
  lemma GraceWindow(genesisMs: U64, slot: U64, reached: U64, now: U64)
    requires genesisMs <= now && reached <= now && slot + 1 < W64
    ensures InGrace(genesisMs, slot, reached, now) <==> now < genesisMs + 2000 * slot + 4000 && now < reached + 300
  {
    SlotClock(genesisMs, now, CurrentSlot(genesisMs, now));
    assert (now - reached) % W64 == now - reached;
  }

  // ---------------------------------------------------------------------------
  // One commit attempt
  // ---------------------------------------------------------------------------

  function Since(p: Pending, now: U64): U64
    requires p.Held?
  {
    if p.reached == 0 then now else p.reached
  }

  /** The block a held proposal becomes with the signers gathered for it. */
  function Gathered(p: Pending): Block
    requires p.Held?
  {
    p.block.(signers := p.signers)
  }

  function Decided(p: Pending, now: U64): Pending
    requires p.Held?
  {
    p.(reached := Since(p, now), committed := true)
  }

  /** An undecided proposal with the weight, out of grace, that the chain takes. */
  ghost predicate Ripe(cr: Crypto, n: Node, i: nat, force: bool, now: U64)
    requires Sized(n) && i < RING
  {
    var p := n.pending[i];
    && p.Held? && !p.committed && ThresholdMet(n.chain, p.signers)
    && (force || !InGrace(n.chain.genesisMs, p.block.header.slot, Since(p, now), now))
    && BlockVerdict(cr, n.chain, Gathered(p), now) == Ok
  }

  /**
   The chain grows by the gathered block if and only if the proposal is ripe; then the proposal is marked,
   the block broadcast and every other proposal left alone.
   */
  lemma GrowsIffRipe(cr: Crypto, n: Node, i: nat, force: bool, now: U64)
    requires Sized(n) && i < RING
    ensures var r := TryCommit(cr, n, i, force, now);
      && (forall j :: 0 <= j < RING && j != i ==> r.pending[j] == n.pending[j])
      && r.slotVotes == n.slotVotes && r.votes == n.votes
      && (Ripe(cr, n, i, force, now) ==>
            && r.chain == Extend(cr, n.chain, Gathered(n.pending[i]))
            && r.blocks == n.blocks + [Gathered(n.pending[i])]
            && r.pending[i] == Decided(n.pending[i], now))
      && (!Ripe(cr, n, i, force, now) ==> r.chain == n.chain)
  {
    hide BlockVerdict, ThresholdMet, InGrace, Extend, Purge;
  }

  /** The moment the threshold is first reached is kept, and nothing else of an undecided proposal changes. */
  lemma UnripeWaits(cr: Crypto, n: Node, i: nat, force: bool, now: U64)
    requires Sized(n) && i < RING && n.pending[i].Held? && !n.pending[i].committed
    requires !TryCommit(cr, n, i, force, now).pending[i].committed
    ensures var p := n.pending[i];
      TryCommit(cr, n, i, force, now) ==
        if ThresholdMet(n.chain, p.signers) then n.(pending := n.pending[i := p.(reached := Since(p, now))]) else n
  {
    hide BlockVerdict, ThresholdMet, InGrace, Accept, Purge;
  }

  /** A proposal the chain stores already is marked and its block broadcast, and the chain stays as it is. */
  lemma DuplicateIsMarked(cr: Crypto, n: Node, i: nat, now: U64)
    requires Sized(n) && i < RING && n.pending[i].Held? && !n.pending[i].committed
    requires ThresholdMet(n.chain, n.pending[i].signers)
    requires !InGrace(n.chain.genesisMs, n.pending[i].block.header.slot, Since(n.pending[i], now), now)
    requires BlockVerdict(cr, n.chain, Gathered(n.pending[i]), now) == Dup
    ensures var r := TryCommit(cr, n, i, false, now);
      && r.chain == n.chain && r.pending[i] == Decided(n.pending[i], now)
      && r.blocks == n.blocks + [Gathered(n.pending[i])]
  {
    hide BlockVerdict, ThresholdMet, InGrace, Extend, Purge;
  }

  // ---------------------------------------------------------------------------
  // Votes
  // ---------------------------------------------------------------------------

  /** The vote is valid, new, and there is room for it. */
  ghost predicate Counts(cr: Crypto, n: Node, i: nat, height: U64, s: Signer)
    requires Sized(n) && i < RING && n.pending[i].Held?
  {
    var p := n.pending[i];
    VoteOk(cr, n.chain, p, height, s) && !Lists(p.signers, s.signer) && |p.signers| < COMMITTEE_MAX
  }

  function WithVote(n: Node, i: nat, s: Signer): Node
    requires Sized(n) && i < RING && n.pending[i].Held?
  {
    var p := n.pending[i];
    n.(pending := n.pending[i := p.(signers := p.signers + [s])])
  }

  lemma CountedVote(cr: Crypto, n: Node, i: nat, height: U64, s: Signer, now: U64)
    requires Sized(n) && i < RING && n.pending[i].Held? && Find(n.pending, n.pending[i].hash) == i
    requires Counts(cr, n, i, height, s)
    ensures HandleVote(cr, n, height, n.pending[i].hash, s, now) == TryCommit(cr, WithVote(n, i, s), i, false, now)
  {
    hide VoteOk, TryCommit, Lists, Find;
  }

  /** A valid, new vote for a held proposal is appended to its signers. */
  lemma VoteIsRecorded(cr: Crypto, n: Node, i: nat, height: U64, s: Signer, now: U64)
    requires Sized(n) && i < RING && n.pending[i].Held? && Find(n.pending, n.pending[i].hash) == i
    requires Counts(cr, n, i, height, s)
    ensures var r := HandleVote(cr, n, height, n.pending[i].hash, s, now);
      && r.pending[i].Held? && r.pending[i].signers == n.pending[i].signers + [s]
      && r.pending[i].block == n.pending[i].block && r.pending[i].hash == n.pending[i].hash
  {
    hide Counts, TryCommit, HandleVote, Find;
    CountedVote(cr, n, i, height, s, now);
    KeepsSigners(cr, WithVote(n, i, s), i, false, now);
  }

  lemma KeepsSigners(cr: Crypto, n: Node, i: nat, force: bool, now: U64)
    requires Sized(n) && i < RING && n.pending[i].Held?
    ensures var p, q := n.pending[i], TryCommit(cr, n, i, force, now).pending[i];
      q.Held? && q.signers == p.signers && q.block == p.block && q.hash == p.hash && q.priority == p.priority
  {
    hide BlockVerdict, ThresholdMet, InGrace, Accept, Purge;
  }

  /** The vote that makes a proposal ripe makes the chain grow by it. */
  lemma DecisiveVoteCommits(cr: Crypto, n: Node, i: nat, height: U64, s: Signer, now: U64)
    requires Sized(n) && i < RING && n.pending[i].Held? && Find(n.pending, n.pending[i].hash) == i
    requires Counts(cr, n, i, height, s) && Ripe(cr, WithVote(n, i, s), i, false, now)
    ensures var r := HandleVote(cr, n, height, n.pending[i].hash, s, now); var p := n.pending[i];
      && r.chain == Extend(cr, n.chain, p.block.(signers := p.signers + [s]))
      && r.pending[i] == Decided(p.(signers := p.signers + [s]), now)
  {
    hide Counts, TryCommit, HandleVote, Find, Ripe, Extend;
    CountedVote(cr, n, i, height, s, now);
    GrowsIffRipe(cr, WithVote(n, i, s), i, false, now);
  }

  /** A vote that does not verify, is not drawn, names no held proposal or is listed already changes nothing. */
  lemma OtherVotesChangeNothing(cr: Crypto, n: Node, height: U64, hash: Hash, s: Signer, now: U64)
    requires Sized(n)
    requires forall i :: 0 <= i < RING && n.pending[i].Held? && n.pending[i].hash == hash ==>
      !VoteOk(cr, n.chain, n.pending[i], height, s) || Lists(n.pending[i].signers, s.signer)
    ensures HandleVote(cr, n, height, hash, s, now) == n
  {
    hide VoteOk, TryCommit, Lists;
  }

  /** What makes a vote valid: the signature on this block, stake, and the draw for the slot of the block. */
  lemma ValidVoteIff(cr: Crypto, c: Chain, p: Pending, height: U64, s: Signer)
    requires c.blocks != [] && p.Held?
    ensures VoteOk(cr, c, p, height, s) <==>
      SignerOk(cr, c.ledger, CommitteeAlpha(SeedFor(cr, c, p.block.header.slot), p.block.header.slot),
               VoteMessage(height, p.hash), TotalWeight(c.ledger) % W64, s)
  {
    hide SeedFor, TotalWeight, CommitteeAlpha, VoteMessage;
  }

  // ---------------------------------------------------------------------------
  // Proposals
  // ---------------------------------------------------------------------------

  /** Everybody listed in a received certificate is listed afterwards, while there is room. */
  lemma {:induction false} MergeListsEverybody(ss: seq<Signer>, ts: seq<Signer>, a: Addr)
    requires Lists(ts, a) && |ss| + |ts| <= COMMITTEE_MAX
    ensures Lists(Merge(ss, ts), a) && |Merge(ss, ts)| <= |ss| + |ts|
  {
    var init, last := ts[..|ts| - 1], ts[|ts| - 1];
    MergeGrowsSlowly(ss, init);
    if Lists(init, a) {
      MergeListsEverybody(ss, init, a);
      var m := Merge(ss, init);
      var i :| 0 <= i < |m| && m[i].signer == a;
      assert Merge(ss, ts)[i].signer == a;
    } else {
      assert last.signer == a;
      var m := Merge(ss, init);
      if !Lists(m, a) {
        assert Merge(ss, ts)[|m|].signer == a;
      }
    }
  }

  lemma {:induction false} MergeGrowsSlowly(ss: seq<Signer>, ts: seq<Signer>)
    ensures |Merge(ss, ts)| <= |ss| + |ts|
  {
    hide Lists;
    if ts != [] {
      MergeGrowsSlowly(ss, ts[..|ts| - 1]);
    }
  }

  /** The entry the ring gives up is one seen no later than any other. */
  lemma {:induction false} OldestIsOldest(ps: seq<Pending>)
    requires ps != [] && forall j :: 0 <= j < |ps| ==> ps[j].Held?
    ensures var i := Oldest(ps);
      && (forall j :: 0 <= j < |ps| ==> ps[i].firstSeen <= ps[j].firstSeen)
      && (forall j :: 0 <= j < i ==> ps[i].firstSeen < ps[j].firstSeen)
  {
    if |ps| > 1 {
      var init := ps[..|ps| - 1];
      OldestIsOldest(init);
      assert forall j :: 0 <= j < |init| ==> init[j] == ps[j];
    }
  }

  /** Likewise the slot table gives up the lowest slot. */
  lemma {:induction false} LowestSlotIsLowest(vs: seq<SlotVote>)
    requires vs != []
    ensures var i := LowestSlot(vs);
      && (forall j :: 0 <= j < |vs| ==> vs[i].slot <= vs[j].slot)
      && (forall j :: 0 <= j < i ==> vs[i].slot < vs[j].slot)
  {
    if |vs| > 1 {
      var init := vs[..|vs| - 1];
      LowestSlotIsLowest(init);
      assert forall j :: 0 <= j < |init| ==> init[j] == vs[j];
    }
  }

  ghost predicate Unknown(cr: Crypto, n: Node, b: Block) {
    forall j :: 0 <= j < |n.pending| && n.pending[j].Held? ==> n.pending[j].hash != BlockHash(cr, b.header)
  }

  /** Such a proposal displaces a free entry, or else one seen no later than any other. */
  ghost predicate Displaces(n: Node, i: nat)
    requires Sized(n) && i < RING
  {
    || n.pending[i].Free?
    || forall j :: 0 <= j < RING ==> n.pending[j].Held? && n.pending[i].firstSeen <= n.pending[j].firstSeen
  }

  lemma AllocDisplaces(n: Node)
    requires Sized(n)
    ensures Displaces(n, Alloc(n.pending))
  {
    if FirstFree(n.pending) == RING {
      OldestIsOldest(n.pending);
    }
  }

  /** What a fresh entry holds. */
  ghost predicate HeldAs(cr: Crypto, l: Ledgers.Ledger, p: Pending, b: Block) {
    && p.Held? && p.block == b.(signers := []) && p.hash == BlockHash(cr, b.header) && p.signers == b.signers
    && p.priority == PriorityOf(cr, l, b.header)
  }

  lemma StashHolds(cr: Crypto, n: Node, b: Block, now: U64)
    requires Sized(n)
    ensures var (m, i) := Stash(cr, n, b, now);
      && i == Alloc(n.pending) && m.chain == n.chain && HeldAs(cr, n.chain.ledger, m.pending[i], b)
      && forall j :: 0 <= j < RING && j != i ==> m.pending[j] == n.pending[j]
  {
    hide Alloc, PriorityOf, NoteProposal, BlockHash;
  }

  lemma NewProposal(cr: Crypto, n: Node, b: Block, now: U64)
    requires Sized(n) && b.header.version == 1 && Unknown(cr, n, b) && Welcome(cr, n.chain, b.header)
    ensures var (m, i) := Stash(cr, n, b, now); HandleBlock(cr, n, b, now) == TryCommit(cr, m, i, false, now)
  {
    hide TryCommit, Stash, BlockHash, SeedFor;
    assert Find(n.pending, BlockHash(cr, b.header)) == RING;
  }

  /** A new proposal for the next height, on this tip and with a valid leader proof, is held with its signers. */
  lemma ProposalIsHeld(cr: Crypto, n: Node, b: Block, now: U64) returns (i: nat)
    requires Sized(n) && b.header.version == 1 && Unknown(cr, n, b) && Welcome(cr, n.chain, b.header)
    ensures i < RING && Displaces(n, i)
    ensures var r := HandleBlock(cr, n, b, now);
      && HeldAs(cr, n.chain.ledger, r.pending[i], b)
      && forall j :: 0 <= j < RING && j != i ==> r.pending[j] == n.pending[j]
  {
    hide TryCommit, PriorityOf, BlockHash, Stash, HandleBlock, Displaces, Alloc, Extend, Ripe, Decided, Welcome;
    i := Alloc(n.pending);
    AllocDisplaces(n);
    StashHolds(cr, n, b, now);
    NewProposal(cr, n, b, now);
    var (m, k) := Stash(cr, n, b, now);
    GrowsIffRipe(cr, m, k, false, now);
    KeepsSigners(cr, m, k, false, now);
  }

  /** A block already held brings its signers: the entry lists them with those it had. */
  lemma CertificateIsMerged(cr: Crypto, n: Node, i: nat, b: Block, now: U64)
    requires Sized(n) && b.header.version == 1 && i < RING && Find(n.pending, BlockHash(cr, b.header)) == i
    ensures var r := HandleBlock(cr, n, b, now);
      r.pending[i].Held? && r.pending[i].signers == Merge(n.pending[i].signers, b.signers)
  {
    hide TryCommit, Merge, BlockHash, Find, Stash, Welcome;
    var p := n.pending[i];
    KeepsSigners(cr, n.(pending := n.pending[i := p.(signers := Merge(p.signers, b.signers))]), i, false, now);
  }

  /**
   A leader broadcasts the block it builds from the best 256 transactions of its pool, holds it, and drops
   what has expired; anybody else does nothing.
   */
  lemma LeaderProposes(cr: Crypto, n: Node, slot: U64, now: U64)
    requires Sized(n)
    ensures var r := Propose(cr, n, slot, now);
      if !n.validator || !Leads(cr, n, slot) then r == n
      else match Agreement.BuildBlock(cr, n.chain, slot, n.kp, Candidates(n.pool))
        case None => r == n.(pool := Pool.Unexpired(n.pool, slot))
        case Some(b) =>
          && n.blocks + [b] <= r.blocks && HeldAs(cr, n.chain.ledger, r.pending[Alloc(n.pending)], b)
          && (r.pool == Pool.Unexpired(n.pool, slot) || r.pool == Purge(cr, Pool.Unexpired(n.pool, slot), b.txs))
  {
    hide TryCommit, Agreement.BuildBlock, Stash, Leads, Candidates, Alloc, PriorityOf, BlockHash, Pool.Unexpired, Purge;
    var pruned := n.(pool := Pool.Unexpired(n.pool, slot));
    match Agreement.BuildBlock(cr, n.chain, slot, n.kp, Candidates(n.pool))
    case None =>
    case Some(b) =>
      StashHolds(cr, pruned, b, now);
      var (m, i) := Stash(cr, pruned, b, now);
      var v := m.(blocks := n.blocks + [b]);
      KeepsSigners(cr, v, i, false, now);
      CommitPurges(cr, v, i, false, now);
      StashKeepsPool(cr, pruned, b, now);
  }

  lemma StashKeepsPool(cr: Crypto, n: Node, b: Block, now: U64)
    requires Sized(n)
    ensures Stash(cr, n, b, now).0.pool == n.pool
  {
    hide Alloc, PriorityOf, NoteProposal, BlockHash;
  }

  /** A commit attempt only ever broadcasts the gathered block and drops its transactions. */
  lemma CommitPurges(cr: Crypto, n: Node, i: nat, force: bool, now: U64)
    requires Sized(n) && i < RING && n.pending[i].Held?
    ensures var r := TryCommit(cr, n, i, force, now);
      || (r.pool == n.pool && r.blocks == n.blocks)
      || (r.pool == Purge(cr, n.pool, n.pending[i].block.txs) && r.blocks == n.blocks + [Gathered(n.pending[i])])
  {
    hide BlockVerdict, ThresholdMet, InGrace, Accept, Purge;
  }

  /** A proposal for another tip, an earlier height or without a valid leader proof changes nothing. */
  lemma UnwelcomeIsIgnored(cr: Crypto, n: Node, b: Block, now: U64)
    requires Sized(n) && Unknown(cr, n, b) && b.header.height <= |n.chain.blocks|
    requires
      || b.header.version != 1 || b.header.height < |n.chain.blocks|
      || b.header.parentHash != BlockHash(cr, Tip(n.chain))
      || !VrfVerify(cr, b.header.vrfProof, LeaderAlpha(SeedFor(cr, n.chain, b.header.slot), b.header.slot),
                    b.header.proposer)
    ensures HandleBlock(cr, n, b, now) == n
  {
    hide TryCommit, Stash, BlockHash, SeedFor, VrfVerify;
    assert Find(n.pending, BlockHash(cr, b.header)) == RING || b.header.version != 1;
  }

  // ---------------------------------------------------------------------------
  // Sealing
  // ---------------------------------------------------------------------------

  /** `i` is the only undecided proposal of its slot. */
  predicate Alone(n: Node, i: nat)
    requires Sized(n) && i < RING && n.pending[i].Held?
  {
    forall j :: 0 <= j < RING && j != i && n.pending[j].Held? && !n.pending[j].committed ==>
      n.pending[j].block.header.slot != n.pending[i].block.header.slot
  }

  lemma SealsUndecided(cr: Crypto, n: Node, slot: U64, i: nat, now: U64)
    requires Sized(n) && i < RING && n.pending[i].Held? && !n.pending[i].committed
    requires n.pending[i].block.header.slot == slot
    ensures SealOne(cr, n, slot, i, now) == TryCommit(cr, n, i, true, now)
  {
    hide TryCommit;
  }

  lemma SkipsOthers(cr: Crypto, n: Node, slot: U64, i: nat, now: U64)
    requires Sized(n) && i < RING
    requires n.pending[i].Held? && !n.pending[i].committed ==> n.pending[i].block.header.slot != slot
    ensures SealOne(cr, n, slot, i, now) == n
  {
    hide TryCommit;
  }

  lemma {:induction false} OthersAreSkipped(cr: Crypto, n: Node, i: nat, k: nat, now: U64)
    requires Sized(n) && i < RING && n.pending[i].Held? && Alone(n, i) && k <= i
    ensures SealUpTo(cr, n, n.pending[i].block.header.slot, k, now) == n
  {
    hide TryCommit, SealOne;
    if k > 0 {
      OthersAreSkipped(cr, n, i, k - 1, now);
      SkipsOthers(cr, n, n.pending[i].block.header.slot, k - 1, now);
    }
  }

  lemma {:induction false} RestIsSkipped(cr: Crypto, n: Node, i: nat, k: nat, now: U64)
    requires Sized(n) && i < RING && n.pending[i].Held? && !n.pending[i].committed && Alone(n, i) && i < k <= RING
    ensures SealUpTo(cr, n, n.pending[i].block.header.slot, k, now) == TryCommit(cr, n, i, true, now)
  {
    hide TryCommit, SealOne, Extend, Decided, Ripe, Gathered;
    var slot := n.pending[i].block.header.slot;
    if k == i + 1 {
      OthersAreSkipped(cr, n, i, i, now);
      SealsUndecided(cr, n, slot, i, now);
    } else {
      RestIsSkipped(cr, n, i, k - 1, now);
      GrowsIffRipe(cr, n, i, true, now);
      SkipsOthers(cr, TryCommit(cr, n, i, true, now), slot, k - 1, now);
    }
  }

  /** The end of a slot commits its undecided proposal as soon as it has the weight, whatever the grace window. */
  lemma SealCommits(cr: Crypto, n: Node, i: nat, now: U64)
    requires Sized(n) && i < RING && n.pending[i].Held? && !n.pending[i].committed && Alone(n, i)
    requires ThresholdMet(n.chain, n.pending[i].signers) && BlockVerdict(cr, n.chain, Gathered(n.pending[i]), now) == Ok
    ensures var r := SealUpTo(cr, n, n.pending[i].block.header.slot, RING, now);
      && r.chain == Extend(cr, n.chain, Gathered(n.pending[i])) && r.pending[i] == Decided(n.pending[i], now)
      && r.blocks == n.blocks + [Gathered(n.pending[i])]
  {
    hide TryCommit, ThresholdMet, BlockVerdict, Extend, InGrace, SealUpTo, Alone;
    RestIsSkipped(cr, n, i, RING, now);
    GrowsIffRipe(cr, n, i, true, now);
  }

  ghost predicate Sealable(cr: Crypto, n: Node, slot: U64, j: nat, now: U64)
    requires Sized(n) && j < RING
  {
    n.pending[j].Held? && n.pending[j].block.header.slot == slot && Ripe(cr, n, j, true, now)
  }

  lemma {:induction false} NothingSealable(cr: Crypto, n: Node, slot: U64, k: nat, now: U64)
    requires Sized(n) && k <= RING && forall j :: 0 <= j < k ==> !Sealable(cr, n, slot, j, now)
    ensures var r := SealUpTo(cr, n, slot, k, now);
      r.chain == n.chain && forall j :: k <= j < RING ==> r.pending[j] == n.pending[j]
  {
    hide TryCommit, Ripe, SealOne;
    if k > 0 {
      NothingSealable(cr, n, slot, k - 1, now);
      var m := SealUpTo(cr, n, slot, k - 1, now);
      SameRipeness(cr, n, m, k - 1, now);
      assert !Sealable(cr, n, slot, k - 1, now);
      UnsealableStays(cr, m, slot, k - 1, now);
    }
  }

  lemma UnsealableStays(cr: Crypto, n: Node, slot: U64, i: nat, now: U64)
    requires Sized(n) && i < RING && !Sealable(cr, n, slot, i, now)
    ensures var r := SealOne(cr, n, slot, i, now);
      r.chain == n.chain && forall j :: 0 <= j < RING && j != i ==> r.pending[j] == n.pending[j]
  {
    hide TryCommit, Ripe, Extend, Decided, Gathered;
    GrowsIffRipe(cr, n, i, true, now);
  }

  lemma SameRipeness(cr: Crypto, n: Node, m: Node, i: nat, now: U64)
    requires Sized(n) && Sized(m) && i < RING && m.chain == n.chain && m.pending[i] == n.pending[i]
    ensures Ripe(cr, m, i, true, now) <==> Ripe(cr, n, i, true, now)
  {
    hide BlockVerdict, ThresholdMet, InGrace;
  }

  /** Among several proposals of a slot that could be sealed, the first in the ring is. */
  lemma FirstIsSealed(cr: Crypto, n: Node, slot: U64, i: nat, now: U64)
    requires Sized(n) && i < RING && Sealable(cr, n, slot, i, now)
    requires forall j :: 0 <= j < i ==> !Sealable(cr, n, slot, j, now)
    ensures SealUpTo(cr, n, slot, i + 1, now).chain == Extend(cr, n.chain, Gathered(n.pending[i]))
  {
    hide TryCommit, Extend, Ripe, SealOne;
    NothingSealable(cr, n, slot, i, now);
    var m := SealUpTo(cr, n, slot, i, now);
    SameRipeness(cr, n, m, i, now);
    RipeIsUndecided(cr, m, i, now);
    SealsUndecided(cr, m, slot, i, now);
    GrowsIffRipe(cr, m, i, true, now);
  }

  lemma RipeIsUndecided(cr: Crypto, n: Node, i: nat, now: U64)
    requires Sized(n) && i < RING && Ripe(cr, n, i, true, now)
    ensures n.pending[i].Held? && !n.pending[i].committed
  {
  }

  // ---------------------------------------------------------------------------
  // Asking for missing headers
  // ---------------------------------------------------------------------------

  /**
   A node asks for what it lacks, at most 256 headers at a time, and only once four seconds have passed or
   the target has moved by more than 64.
   */
  lemma RequestsAreLimited(cr: Crypto, n: Node, b: Block, now: U64)
    requires Sized(n) && b.header.version == 1 && Unknown(cr, n, b) && b.header.height > |n.chain.blocks|
    requires n.lastReqMs <= now && n.lastReqTarget + 64 < W64
    ensures var r, target := HandleBlock(cr, n, b, now), b.header.height;
      if n.lastReqMs + 4000 <= now || n.lastReqTarget + 64 < target then
        && |r.requests| == |n.requests| + 1 && r.lastReqMs == now && r.lastReqTarget == target
        && r.chain == n.chain && r.pending == n.pending
        && var q := r.requests[|n.requests|];
          && q.from == |n.chain.blocks|
          && (target - Height(n.chain) <= 256 ==> q.count == target - Height(n.chain)) && q.count <= 256
      else r == n
  {
    hide TryCommit, Stash, BlockHash, Welcome;
    assert Find(n.pending, BlockHash(cr, b.header)) == RING;
  }
}
