/**
 A run in which honest validators vote for two blocks of one height, and both blocks get a commit
 certificate (src/consensus.c:474-595, 738-793; src/chain.c:910-971).
 */
module TwoVotes {
  import opened Words
  import opened Types
  import opened Codec
  import opened Quorum
  import opened Chains
  import opened Agreement
  import opened Voting
  import opened VoteLocks
  import opened Network

  /** Two proposals for the next height of `c`, for two later slots, the second of lower priority. */
  ghost predicate TwoProposals(cr: Crypto, c: Chain, x: Block, y: Block) {
    && c.blocks != [] && Height(c) + 1 < W64
    && Proposal(cr, c, x) && Proposal(cr, c, y)
    && x.header.slot != y.header.slot && BlockHash(cr, x.header) != BlockHash(cr, y.header)
    && Less(PriorityOf(cr, c.ledger, y.header), PriorityOf(cr, c.ledger, x.header))
  }

  ghost predicate Proposal(cr: Crypto, c: Chain, b: Block)
    requires c.blocks != []
  {
    b.header.version == BLOCK_VERSION && b.header.slot > 0 && b.signers == [] && Welcome(cr, c, b.header)
  }

  /** The proof with which `kp` votes on a proposal for `slot`, if it is in that committee. */
  ghost function ProofOf(cr: Crypto, kp: KeyPair, c: Chain, slot: U64): Option<Sig>
    requires c.blocks != []
  {
    CommitteeProof(cr, Start(kp, true, c), slot)
  }

  /** `kp` is drawn for both slots, and alone cannot commit anything. */
  ghost predicate Voter(cr: Crypto, kp: KeyPair, c: Chain, x: Block, y: Block)
    requires c.blocks != []
  {
    && ProofOf(cr, kp, c, x.header.slot).Some? && ProofOf(cr, kp, c, y.header.slot).Some?
    && !ThresholdMet(c, []) && forall s: Signer :: s.signer == kp.pk ==> !ThresholdMet(c, [s])
  }

  function Entered(cr: Crypto, c: Chain, b: Block, now: U64): Pending {
    Held(false, b.(signers := []), BlockHash(cr, b.header), PriorityOf(cr, c.ledger, b.header), b.signers, now, 0)
  }

  /** What matters of a node that holds `ps` and then free entries, and used the slot table so far for `vs`. */
  predicate Holds(n: Node, kp: KeyPair, c: Chain, ps: seq<Pending>, vs: seq<SlotVote>) {
    && |ps| <= RING && |vs| <= RING && Sized(n) && n.kp == kp && n.validator && n.chain == c
    && n.pending[..|ps|] == ps && (forall i :: |ps| <= i < RING ==> n.pending[i].Free?)
    && n.slotVotes[..|vs|] == vs && forall i :: |vs| <= i < RING ==> n.slotVotes[i] == NO_VOTE
  }

  /** A new proposal takes the next free entry, and its slot the next unused row. */
  lemma Receives(cr: Crypto, n: Node, kp: KeyPair, c: Chain, ps: seq<Pending>, vs: seq<SlotVote>, b: Block, now: U64)
    returns (sv: SlotVote)
    requires c.blocks != [] && Holds(n, kp, c, ps, vs) && |ps| < RING && |vs| < RING && Proposal(cr, c, b)
      && !ThresholdMet(c, [])
    requires forall i :: 0 <= i < |ps| ==> ps[i].Held? && ps[i].hash != BlockHash(cr, b.header)
    requires forall i :: 0 <= i < |vs| ==> vs[i].slot != 0 && vs[i].slot != b.header.slot
    ensures sv.slot == b.header.slot && !sv.voted
    ensures var r := HandleBlock(cr, n, b, now);
      && Holds(r, kp, c, ps + [Entered(cr, c, b, now)], vs + [sv])
      && r.votes == n.votes && r.voteHeight == n.voteHeight && r.voteBlock == n.voteBlock
        && r.votePriority == n.votePriority
  {
    hide ThresholdMet, Welcome, PriorityOf, BlockHash, Find, Alloc, NoteProposal, BlockVerdict, InGrace, Accept;
    assert forall i :: 0 <= i < |ps| ==> n.pending[i] == ps[i] by { PrefixAt(n.pending, ps); }
    HeightOfProposal(cr, c, b);
    FindIs(n.pending, BlockHash(cr, b.header), RING);
    AllocIs(n.pending, |ps|);
    sv := NotedIs(n.slotVotes, vs, b.header.slot, PriorityOf(cr, c.ledger, b.header));
    assert n.pending[|ps| := Entered(cr, c, b, now)][..|ps| + 1] == ps + [Entered(cr, c, b, now)];
  }

  lemma PrefixAt<T>(s: seq<T>, p: seq<T>)
    requires |p| <= |s| && s[..|p|] == p
    ensures forall i :: 0 <= i < |p| ==> s[i] == p[i]
  {
    assert forall i :: 0 <= i < |p| ==> s[i] == s[..|p|][i];
  }

  lemma AllocIs(ps: seq<Pending>, i: nat)
    requires i < |ps| && (forall j :: 0 <= j < i ==> ps[j].Held?) && ps[i].Free?
    ensures Alloc(ps) == i
  {
    hide Oldest;
    FreeIs(ps, i);
  }

  lemma NotedIs(all: seq<SlotVote>, vs: seq<SlotVote>, slot: U64, priority: Bytes) returns (sv: SlotVote)
    requires |all| == RING && |vs| < RING && all[..|vs|] == vs && forall i :: |vs| <= i < RING ==> all[i] == NO_VOTE
    requires slot > 0 && forall i :: 0 <= i < |vs| ==> vs[i].slot != 0 && vs[i].slot != slot
    ensures sv.slot == slot && !sv.voted
    ensures var r := NoteProposal(all, slot, priority);
      r[..|vs| + 1] == vs + [sv] && forall i :: |vs| + 1 <= i < RING ==> r[i] == NO_VOTE
  {
    hide SlotAt, LowestSlot, Less;
    PrefixAt(all, vs);
    SlotIs(all, slot, RING);
    LowestSlotIs(all, |vs|);
    var r := NoteProposal(all, slot, priority);
    sv := r[|vs|];
    assert r[..|vs| + 1] == r[..|vs|] + [sv];
    assert r[..|vs|] == all[..|vs|];
  }

  /** A vote phase for an open slot casts a vote for the lowest proposal when it is better than the lock. */
  lemma Votes(cr: Crypto, n: Node, kp: KeyPair, c: Chain, ps: seq<Pending>, vs: seq<SlotVote>, slot: U64, k: nat,
      at: nat, now: U64)
    returns (ws: seq<SlotVote>, p: Pending)
    requires c.blocks != [] && Holds(n, kp, c, ps, vs) && Height(c) + 1 < W64
    requires at < |vs| && vs[at].slot == slot && !vs[at].voted
    requires forall j :: 0 <= j < |vs| && j != at ==> vs[j].slot != slot
    requires k < |ps| && ps[k].Held? && ps[k].block.header.slot == slot && ps[k].signers == []
    requires forall j :: 0 <= j < |ps| ==> Candidate(ps[j], Height(c) + 1)
    requires forall j :: 0 <= j < |ps| && j != k ==> ps[j].Held? && Less(ps[k].priority, ps[j].priority)
    requires n.voteHeight != Height(c) + 1 || Less(ps[k].priority, n.votePriority)
    requires ProofOf(cr, kp, c, slot).Some? && forall s: Signer :: s.signer == kp.pk ==> !ThresholdMet(c, [s])
    ensures |ws| == |vs| && ws[at].slot == slot && forall j :: 0 <= j < |vs| && j != at ==> ws[j] == vs[j]
    ensures p == ps[k].(signers := [OurEntry(cr, kp, ps[k], ProofOf(cr, kp, c, slot).value)])
    ensures var r := VotePhase(cr, n, slot, now); var h := Height(c) + 1;
      && Holds(r, kp, c, ps[k := p], ws)
      && r.votes == n.votes + [Ballot(h, ps[k].hash, p.signers[0], ps[k].priority)]
      && r.voteHeight == h && r.voteBlock == ps[k].hash && r.votePriority == ps[k].priority
  {
    hide ThresholdMet, Lowest, Touch, NoteVote, BlockVerdict, InGrace, Accept, CommitteeProof, SeedFor, OurEntry,
      Backed, Less;
    var h := Height(c) + 1;
    PrefixAt(n.pending, ps);
    LowestHere(n.pending, h, k);
    TouchIs(n.slotVotes, vs, slot, at);
    var proof := ProofOf(cr, kp, c, slot).value;
    var s := OurEntry(cr, kp, ps[k], proof);
    p := ps[k].(signers := [s]);
    assert s.signer == kp.pk by { EntrySigner(cr, kp, ps[k], proof); }
    assert AddSigner([], s) == [s];
    var m := n.(slotVotes := Touch(n.slotVotes, slot).0);
    SameCommittee(cr, m, Start(kp, true, c), slot);
    ws := VotedIs(n.slotVotes, vs, slot, ps[k].hash, ps[k].priority, at);
    assert n.pending[k := p][..|ps|] == ps[k := p];
  }

  lemma EntrySigner(cr: Crypto, kp: KeyPair, p: Pending, proof: Sig)
    requires p.Held?
    ensures OurEntry(cr, kp, p, proof).signer == kp.pk
  {
  }

  /** A candidate strictly below all others is the one selected. */
  lemma LowestHere(ps: seq<Pending>, h: nat, k: nat)
    requires k < |ps| && Candidate(ps[k], h)
    requires forall j :: 0 <= j < |ps| && j != k && Candidate(ps[j], h) ==> Less(ps[k].priority, ps[j].priority)
    ensures Lowest(ps, h) == k
  {
    hide Lowest;
    LowestIsLowest(ps, h, k);
  }

  lemma TouchIs(all: seq<SlotVote>, vs: seq<SlotVote>, slot: U64, at: nat)
    requires |all| == RING && |vs| <= RING && all[..|vs|] == vs
    requires at < |vs| && vs[at].slot == slot && forall j :: 0 <= j < |vs| && j != at ==> vs[j].slot != slot
    ensures Touch(all, slot) == (all, at)
  {
    PrefixAt(all, vs);
    SlotIs(all, slot, at);
  }

  lemma VotedIs(all: seq<SlotVote>, vs: seq<SlotVote>, slot: U64, hash: Hash, priority: Bytes,
      at: nat) returns (ws: seq<SlotVote>)
    requires |all| == RING && |vs| <= RING && all[..|vs|] == vs && forall i :: |vs| <= i < RING ==> all[i] == NO_VOTE
    requires at < |vs| && vs[at].slot == slot && forall j :: 0 <= j < |vs| && j != at ==> vs[j].slot != slot
    ensures |ws| == |vs| && ws[at].slot == slot && forall j :: 0 <= j < |vs| && j != at ==> ws[j] == vs[j]
    ensures var r := NoteVote(all, slot, hash, priority);
      r[..|vs|] == ws && forall i :: |vs| <= i < RING ==> r[i] == NO_VOTE
  {
    TouchIs(all, vs, slot, at);
    hide Touch;
    ws := vs[at := SlotVote(slot, priority, hash, true)];
    assert NoteVote(all, slot, hash, priority)[..|vs|] == ws;
  }

  /** Proposal, vote, better proposal, vote. */
  function Schedule(x: Block, y: Block, now: U64): seq<Event> {
    [BlockIn(x, now), Vote(x.header.slot, now), BlockIn(y, now), Vote(y.header.slot, now)]
  }

  /** The schedule makes `kp` broadcast exactly two votes: its entry for `x`, then its entry for `y`. */
  ghost predicate CastBoth(cr: Crypto, kp: KeyPair, c: Chain, x: Block, y: Block, now: U64)
    requires c.blocks != []
  {
    && AllBounded(Schedule(x, y, now))
    && ProofOf(cr, kp, c, x.header.slot).Some? && ProofOf(cr, kp, c, y.header.slot).Some?
    && var votes := Steps(cr, Start(kp, true, c), Schedule(x, y, now)).votes;
       && |votes| == 2
       && votes[0].entry == EntryFor(cr, kp, c, x) && votes[1].entry == EntryFor(cr, kp, c, y)
       && votes[0].height == votes[1].height == Height(c) + 1
       && votes[0].block == BlockHash(cr, x.header) && votes[1].block == BlockHash(cr, y.header)
  }

  /**
   An honest validator that receives two proposals of falling priority for one height, each before the
   vote phase of its slot, casts a commit vote for both.
   */
  lemma HonestNodeVotesTwice(cr: Crypto, kp: KeyPair, c: Chain, x: Block, y: Block, now: U64)
    requires TwoProposals(cr, c, x, y) && Voter(cr, kp, c, x, y)
    ensures CastBoth(cr, kp, c, x, y, now)
  {
    hide Holds, HandleBlock, VotePhase, ThresholdMet, Welcome, PriorityOf, BlockHash, ProofOf, OurEntry, Less;
    var h := Height(c) + 1;
    var es := Schedule(x, y, now);
    StepsUnfold(cr, Start(kp, true, c), es);
    var n0 := Start(kp, true, c);
    StartHolds(kp, c);
    HeightOfProposal(cr, c, x);
    HeightOfProposal(cr, c, y);

    var n1 := HandleBlock(cr, n0, x, now);
    var a := Receives(cr, n0, kp, c, [], [], x, now);
    var px := Entered(cr, c, x, now);
    assert [] + [px] == [px] && [] + [a] == [a];

    var n2 := VotePhase(cr, n1, x.header.slot, now);
    var ws, vx := Votes(cr, n1, kp, c, [px], [a], x.header.slot, 0, 0, now);
    assert [px][0 := vx] == [vx];

    var n3 := HandleBlock(cr, n2, y, now);
    var b := Receives(cr, n2, kp, c, [vx], ws, y, now);
    var py := Entered(cr, c, y, now);
    assert [vx] + [py] == [vx, py] && ws + [b] == [ws[0], b];

    SameEntry(cr, kp, c, x, now);
    SameEntry(cr, kp, c, y, now);
    var us, vy := Votes(cr, n3, kp, c, [vx, py], [ws[0], b], y.header.slot, 1, 1, now);
  }

  /** The certificate entry `kp` signs for a proposal. */
  ghost function EntryFor(cr: Crypto, kp: KeyPair, c: Chain, b: Block): Signer
    requires c.blocks != [] && ProofOf(cr, kp, c, b.header.slot).Some?
  {
    OurEntry(cr, kp, Entered(cr, c, b, 0), ProofOf(cr, kp, c, b.header.slot).value)
  }

  lemma SameEntry(cr: Crypto, kp: KeyPair, c: Chain, b: Block, now: U64)
    requires c.blocks != [] && ProofOf(cr, kp, c, b.header.slot).Some?
    ensures OurEntry(cr, kp, Entered(cr, c, b, now), ProofOf(cr, kp, c, b.header.slot).value) == EntryFor(cr, kp, c, b)
  {
    hide ProofOf, VoteMessage, BlockHash, PriorityOf;
  }

  lemma HeightOfProposal(cr: Crypto, c: Chain, b: Block)
    requires c.blocks != [] && Proposal(cr, c, b)
    ensures b.header.height == Height(c) + 1
  {
  }

  lemma StartHolds(kp: KeyPair, c: Chain)
    requires c.blocks != []
    ensures Holds(Start(kp, true, c), kp, c, [], [])
  {
  }

  lemma StepsUnfold(cr: Crypto, n: Node, es: seq<Event>)
    requires Sized(n) && |es| == 4 && AllBounded(es)
    ensures Steps(cr, n, es) == Step(cr, Step(cr, Step(cr, Step(cr, n, es[0]), es[1]), es[2]), es[3])
  {
    hide Step;
    assert es[..3][..2] == es[..2] && es[..2][..1] == es[..1] && es[..1][..0] == [];
    assert Steps(cr, n, es[..1]) == Step(cr, n, es[0]);
    assert Steps(cr, n, es[..2]) == Step(cr, Steps(cr, n, es[..1]), es[1]);
    assert Steps(cr, n, es[..3]) == Step(cr, Steps(cr, n, es[..2]), es[2]);
  }

  // ---------------------------------------------------------------------------
  // Two certificates
  // ---------------------------------------------------------------------------

  /** The entries all of `kps` sign for a proposal. */
  ghost function Certificate(cr: Crypto, kps: seq<KeyPair>, c: Chain, b: Block): (ss: seq<Signer>)
    requires c.blocks != [] && forall i :: 0 <= i < |kps| ==> ProofOf(cr, kps[i], c, b.header.slot).Some?
    ensures |ss| == |kps| && forall i :: 0 <= i < |kps| ==> ss[i] == EntryFor(cr, kps[i], c, b)
  {
    if kps == [] then []
    else Certificate(cr, kps[..|kps| - 1], c, b) + [EntryFor(cr, kps[|kps| - 1], c, b)]
  }

  lemma EntryIsOk(cr: Crypto, kp: KeyPair, c: Chain, b: Block)
    requires c.blocks != [] && ProofOf(cr, kp, c, b.header.slot).Some? && SignsCorrectly(cr, kp)
    ensures SignerOk(cr, c.ledger, CommitteeAlpha(SeedFor(cr, c, b.header.slot), b.header.slot),
                     VoteMessage(b.header.height, BlockHash(cr, b.header)), TotalWeight(c.ledger) % W64,
                     EntryFor(cr, kp, c, b))
  {
    hide SeedFor, TotalWeight, CommitteeAlpha, VoteMessage, BlockHash, PriorityOf, Isqrt.Sqrt;
  }

  /** Weights and live weight for which the certificate of these keys passes both gates. */
  ghost predicate Enough(cr: Crypto, kps: seq<KeyPair>, c: Chain, b: Block)
    requires c.blocks != [] && forall i :: 0 <= i < |kps| ==> ProofOf(cr, kps[i], c, b.header.slot).Some?
  {
    var ss := Certificate(cr, kps, c, b);
    && kps != [] && TotalWeight(c.ledger) % W64 != 0
    && Gates(WeightOf(c.ledger, SignerAddrs(ss)), LiveWeight(PostLedger(cr, c.ledger, b), c.live, Height(c)),
             TotalWeight(c.ledger) % W64)
  }

  ghost predicate AllVoters(cr: Crypto, kps: seq<KeyPair>, c: Chain, x: Block, y: Block)
    requires c.blocks != []
  {
    && (forall i :: 0 <= i < |kps| ==> Voter(cr, kps[i], c, x, y) && SignsCorrectly(cr, kps[i]))
    && (forall i :: 0 <= i < |kps| ==> ProofOf(cr, kps[i], c, x.header.slot).Some?)
    && (forall i :: 0 <= i < |kps| ==> ProofOf(cr, kps[i], c, y.header.slot).Some?)
  }

  /**
   "At most one block finalises per height" fails without a single faulty node: validators that all go
   through the schedule above, with enough weight between them, have cast the votes of a valid
   certificate for both blocks.
   */
  lemma HonestVotesCertifyBoth(cr: Crypto, kps: seq<KeyPair>, c: Chain, x: Block, y: Block, now: U64)
    requires TwoProposals(cr, c, x, y)
    requires AllVoters(cr, kps, c, x, y) && Enough(cr, kps, c, x) && Enough(cr, kps, c, y)
    ensures forall i :: 0 <= i < |kps| ==> CastBoth(cr, kps[i], c, x, y, now)
    ensures Certified(cr, c, x.(signers := Certificate(cr, kps, c, x)))
    ensures Certified(cr, c, y.(signers := Certificate(cr, kps, c, y)))
    ensures BlockHash(cr, x.header) != BlockHash(cr, y.header) && x.header.height == y.header.height
  {
    hide CastBoth, ProofOf, SignsCorrectly, Enough, Certified, BlockHash, PriorityOf, Proposal, Voter, Certificate;
    forall i | 0 <= i < |kps| ensures CastBoth(cr, kps[i], c, x, y, now) {
      HonestNodeVotesTwice(cr, kps[i], c, x, y, now);
    }
    CertificateHolds(cr, kps, c, x);
    CertificateHolds(cr, kps, c, y);
    HeightOfProposal(cr, c, x);
    HeightOfProposal(cr, c, y);
  }

  ghost predicate Certified(cr: Crypto, c: Chain, b: Block)
    requires c.blocks != []
  {
    CommitOk(cr, SeedFor(cr, c, b.header.slot), c.ledger, PostLedger(cr, c.ledger, b), c.live, Height(c), b)
  }

  lemma CertificateHolds(cr: Crypto, kps: seq<KeyPair>, c: Chain, b: Block)
    requires c.blocks != [] && forall i :: 0 <= i < |kps| ==> ProofOf(cr, kps[i], c, b.header.slot).Some?
    requires forall i :: 0 <= i < |kps| ==> SignsCorrectly(cr, kps[i])
    requires Enough(cr, kps, c, b)
    ensures Certified(cr, c, b.(signers := Certificate(cr, kps, c, b)))
  {
    hide SeedFor, TotalWeight, LiveWeight, WeightOf, SignerOk, SignsCorrectly, ProofOf, EntryFor, BlockHash,
      VoteMessage,
      CommitteeAlpha, ExecTxs, Gates;
    var ss := Certificate(cr, kps, c, b);
    assert PostLedger(cr, c.ledger, b.(signers := ss)) == PostLedger(cr, c.ledger, b);
    forall i | 0 <= i < |ss|
      ensures SignerOk(cr, c.ledger, CommitteeAlpha(SeedFor(cr, c, b.header.slot), b.header.slot),
                       VoteMessage(b.header.height, BlockHash(cr, b.header)), TotalWeight(c.ledger) % W64, ss[i])
    {
      EntryIsOk(cr, kps[i], c, b);
    }
  }
}
