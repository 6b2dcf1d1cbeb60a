/** Honest votes split a network: two peers end up on different chains (src/consensus.c:474-595, 738-793). */
module Split {
  import opened Words
  import opened Types
  import opened Codec
  import opened Snapshots
  import opened Quorum
  import opened Chains
  import opened Agreement
  import opened Forks
  import opened Liveness
  import opened Voting
  import opened Network
  import opened TwoVotes

  /** An empty block that `kp` builds on `c` for `slot`, late enough to be sealed on sight. */
  ghost predicate Built(cr: Crypto, c: Chain, kp: KeyPair, slot: U64, now: U64, b: Block)
    requires c.blocks != []
  {
    && BuildBlock(cr, c, slot, kp, []) == Some(b) && SignsCorrectly(cr, kp) && slot > Tip(c).slot
    && SlotTime(c, slot) <= (now + 1500) % W64 && CurrentSlot(c.genesisMs, now) > (slot + 1) % W64
  }

  lemma BuiltShape(cr: Crypto, c: Chain, kp: KeyPair, slot: U64, now: U64, b: Block)
    requires c.blocks != [] && Built(cr, c, kp, slot, now, b)
    ensures b.txs == [] && b.signers == [] && b.header.slot == slot && Wire(b)
  {
    hide StateRoot, TxRoot, PayLeader, SeedFor, BlockHash, ExpectedBaseFee, SlotTime, VrfProve, SignsCorrectly,
      CurrentSlot;
  }

  /** With a valid certificate the block also passes the gates of `try_commit_inner`. */
  lemma CertifiedMeetsThreshold(cr: Crypto, c: Chain, b: Block)
    requires c.blocks != [] && b.txs == [] && Certified(cr, c, b) && |c.ledger.accounts| < W32 && DistinctLive(c.live)
    ensures ThresholdMet(c, b.signers)
  {
    hide SignerOk, TotalWeight, PostLedger, SeedFor, ThresholdMet, Gates, SameStakes, LiveWeight, WeightOf, BlockHash,
      VoteMessage,
      CommitteeAlpha;
    PlainBlocksKeepStakes(cr, c.ledger, b);
    SealingAgreesWithValidation(cr, c, b);
  }

  /** Any node at genesis that receives the certified block commits it. */
  lemma CertifiedBlockIsCommitted(cr: Crypto, g: Genesis, kw: KeyPair, kp: KeyPair, slot: U64, b: Block,
      ss: seq<Signer>, now: U64)
    requires var c := GenesisChain(cr, g);
      && c.blocks != [] && Built(cr, c, kp, slot, now, b) && Proposal(cr, c, b)
      && Certified(cr, c, b.(signers := ss)) && ThresholdMet(c, ss)
    ensures var c := GenesisChain(cr, g); var n := HandleBlock(cr, Start(kw, false, c), b.(signers := ss), now);
      n.chain.blocks == c.blocks + [b.(signers := ss)]
  {
    hide GenesisChain, ThresholdMet, Welcome, PriorityOf, BlockHash, NoteProposal, BlockVerdict, SignsCorrectly,
      SlotTime, CurrentSlot,
      Certified, BuildBlock, Purge, Alloc, Find;
    var c, full := GenesisChain(cr, g), b.(signers := ss);
    var n := Start(kw, false, c);
    HeightOfProposal(cr, c, b);
    assert Welcome(cr, c, full.header);
    FindIs(n.pending, BlockHash(cr, full.header), RING);
    AllocIs(n.pending, 0);
    BuiltShape(cr, c, kp, slot, now, b);
    AcceptedAtGenesis(cr, g, kp, slot, b, ss, now);
    var (m, j) := Stash(cr, n, full, now);
    assert m.pending[j].block.(signers := ss) == full;
    assert !InGrace(c.genesisMs, slot, now, now);
  }

  lemma AcceptedAtGenesis(cr: Crypto, g: Genesis, kp: KeyPair, slot: U64, b: Block, ss: seq<Signer>, now: U64)
    requires var c := GenesisChain(cr, g);
      c.blocks != [] && Built(cr, c, kp, slot, now, b) && Certified(cr, c, b.(signers := ss))
    ensures BlockVerdict(cr, GenesisChain(cr, g), b.(signers := ss), now) == Ok
  {
    hide BuildBlock, SignsCorrectly, SlotTime, CurrentSlot, BlockVerdict, CommitOk, PostLedger, SeedFor, GenesisBlock;
    assert Run(cr, g, []) == GenesisChain(cr, g);
    GenesisHasOneBlock(cr, g);
    var c := GenesisChain(cr, g);
    assert b.header.slot == slot by { BuiltShape(cr, c, kp, slot, now, b); }
    BuiltBlocksAreAccepted(cr, g, [], slot, kp, [], ss, now);
  }

  ghost predicate DistinctKeys(kps: seq<KeyPair>) {
    forall i, j :: 0 <= i < j < |kps| ==> kps[i].pk != kps[j].pk
  }

  lemma CertificateIsClean(cr: Crypto, kps: seq<KeyPair>, c: Chain, b: Block)
    requires c.blocks != [] && DistinctKeys(kps)
    requires forall i :: 0 <= i < |kps| ==> ProofOf(cr, kps[i], c, b.header.slot).Some?
    ensures DistinctSigners(Certificate(cr, kps, c, b))
    ensures forall i :: 0 <= i < |kps| ==> SignerAddrs(Certificate(cr, kps, c, b))[i] == kps[i].pk
  {
    hide ProofOf, Certificate;
    var ss := Certificate(cr, kps, c, b);
    forall i | 0 <= i < |kps| ensures ss[i].signer == kps[i].pk {
      EntrySigner(cr, kps[i], Entered(cr, c, b, 0), ProofOf(cr, kps[i], c, b.header.slot).value);
    }
    var addrs := SignerAddrs(ss);
    assert forall i :: 0 <= i < |addrs| ==> addrs[i] == kps[i].pk;
  }

  /** A peer that only listens and hears one certified block. */
  function Listener(kw: KeyPair, b: Block, now: U64): Peer {
    Peer(kw, false, [BlockIn(b, now)])
  }

  lemma ListenerState(cr: Crypto, g: Genesis, kw: KeyPair, b: Block, now: U64)
    requires Wire(b) && DistinctSigners(b.signers) && GenesisChain(cr, g).blocks != []
    ensures AllClean(Listener(kw, b, now).events)
    ensures StateOf(cr, g, Listener(kw, b, now)) == HandleBlock(cr, Start(kw, false, GenesisChain(cr, g)), b, now)
  {
    hide HandleBlock, GenesisChain, Wire, DistinctSigners;
    var es := Listener(kw, b, now).events;
    assert Bounded(es[0]) by { WireIsBounded(b, now); }
    var n := Start(kw, false, GenesisChain(cr, g));
    assert |es| == 1 && es[..|es| - 1] == [];
    assert Steps(cr, n, []) == n;
    assert Steps(cr, n, es) == Step(cr, Steps(cr, n, es[..|es| - 1]), es[0]);
  }

  lemma WireIsBounded(b: Block, now: U64)
    requires Wire(b)
    ensures Bounded(BlockIn(b, now))
  {
  }

  /** Two empty proposals at genesis, and honest voters with enough weight for both. */
  ghost predicate Contested(cr: Crypto, g: Genesis, kx: KeyPair, x: Block, ky: KeyPair, y: Block, kps: seq<KeyPair>,
      now: U64)
    requires GenesisChain(cr, g).blocks != []
  {
    var c := GenesisChain(cr, g);
    && TwoProposals(cr, c, x, y) && Built(cr, c, kx, x.header.slot, now, x) && Built(cr, c, ky, y.header.slot, now, y)
    && DistinctGenesis(g) && |c.ledger.accounts| < W32
    && DistinctKeys(kps) && |kps| <= COMMITTEE_MAX
    && AllVoters(cr, kps, c, x, y) && Enough(cr, kps, c, x) && Enough(cr, kps, c, y)
  }

  /** What `kp` broadcasts as a validator that sees proposal, vote phase, better proposal, vote phase. */
  ghost function Ballots(cr: Crypto, kp: KeyPair, c: Chain, x: Block, y: Block, now: U64): seq<Ballot>
    requires c.blocks != [] && AllBounded(Schedule(x, y, now))
  {
    Steps(cr, Start(kp, true, c), Schedule(x, y, now)).votes
  }

  ghost predicate CastBy(cr: Crypto, kp: KeyPair, c: Chain, x: Block, y: Block, now: U64, s: Signer) {
    && c.blocks != [] && AllBounded(Schedule(x, y, now))
    && exists k :: 0 <= k < |Ballots(cr, kp, c, x, y, now)| && Ballots(cr, kp, c, x, y, now)[k].entry == s
  }

  /** Every entry of `ss` is a vote that one of `kps` broadcast. */
  ghost predicate AllCast(cr: Crypto, kps: seq<KeyPair>, c: Chain, x: Block, y: Block, now: U64, ss: seq<Signer>) {
    forall j :: 0 <= j < |ss| ==> SomebodyCast(cr, kps, c, x, y, now, ss[j])
  }

  ghost predicate SomebodyCast(cr: Crypto, kps: seq<KeyPair>, c: Chain, x: Block, y: Block, now: U64, s: Signer) {
    exists i :: 0 <= i < |kps| && CastBy(cr, kps[i], c, x, y, now, s)
  }

  lemma CertificateIsCast(cr: Crypto, kps: seq<KeyPair>, c: Chain, x: Block, y: Block, now: U64, b: Block)
    requires c.blocks != [] && (b == x || b == y)
    requires forall i :: 0 <= i < |kps| ==> CastBoth(cr, kps[i], c, x, y, now)
    requires forall i :: 0 <= i < |kps| ==> ProofOf(cr, kps[i], c, b.header.slot).Some?
    ensures AllCast(cr, kps, c, x, y, now, Certificate(cr, kps, c, b))
  {
    hide ProofOf, EntryFor, Certificate, Steps, AllBounded, Schedule;
    var ss := Certificate(cr, kps, c, b);
    forall j | 0 <= j < |ss| ensures SomebodyCast(cr, kps, c, x, y, now, ss[j]) {
      assert CastBoth(cr, kps[j], c, x, y, now);
      assert Ballots(cr, kps[j], c, x, y, now)[if b == x then 0 else 1].entry == ss[j];
      assert CastBy(cr, kps[j], c, x, y, now, ss[j]);
    }
  }

  /**
   The certified blocks `x` and `y` carry only votes that validators cast on their proposals by following
   the protocol, and two listening peers that hear one each are on different chains.
   */
  ghost predicate Splits(cr: Crypto, g: Genesis, kps: seq<KeyPair>, kw: KeyPair, x: Block, y: Block, now: U64) {
    var c, px, py := GenesisChain(cr, g), x.(signers := []), y.(signers := []);
    && AllCast(cr, kps, c, px, py, now, x.signers) && AllCast(cr, kps, c, px, py, now, y.signers)
    && AllClean(Listener(kw, x, now).events) && AllClean(Listener(kw, y, now).events) && c.blocks != []
    && !NoFork(StateOf(cr, g, Listener(kw, x, now)).chain, StateOf(cr, g, Listener(kw, y, now)).chain)
  }

  /**
   "At most one block finalises per height" fails without a faulty node. The two certificates consist of
   votes cast by validators that only follow the protocol, and each makes a listening peer commit its
   block: the two peers are on different chains.
   */
  lemma HonestVotesSplitTheNetwork(
      cr: Crypto, g: Genesis, kx: KeyPair, x: Block, ky: KeyPair, y: Block, kps: seq<KeyPair>, kw: KeyPair, now: U64)
    returns (cx: Block, cy: Block)
    requires GenesisChain(cr, g).blocks != [] && Contested(cr, g, kx, x, ky, y, kps, now)
    ensures cx == x.(signers := cx.signers) && cy == y.(signers := cy.signers)
    ensures Splits(cr, g, kps, kw, cx, cy, now)
  {
    hide CastBoth, AllVoters, Enough, GenesisChain, DistinctGenesis, DistinctKeys, Certificate, Built, BlockHash,
      StateOf, AllCast,
      HandleBlock, AllClean, Certified, ProofOf, PriorityOf, Less, Proposal, Start, ThresholdMet, DistinctSigners;
    var c := GenesisChain(cr, g);
    VotersHaveProofs(cr, kps, c, x, y);
    HonestVotesCertifyBoth(cr, kps, c, x, y, now);
    cx, cy := x.(signers := Certificate(cr, kps, c, x)), y.(signers := Certificate(cr, kps, c, y));
    CertificateIsClean(cr, kps, c, x);
    CertificateIsClean(cr, kps, c, y);
    ListenerCommits(cr, g, kx, x, cx.signers, kw, now);
    ListenerCommits(cr, g, ky, y, cy.signers, kw, now);
    assert !SameContent(cx, cy);
    DifferentTips(StateOf(cr, g, Listener(kw, cx, now)).chain, StateOf(cr, g, Listener(kw, cy, now)).chain, c.blocks,
      cx, cy);
    CertificateIsCast(cr, kps, c, x, y, now, x);
    CertificateIsCast(cr, kps, c, x, y, now, y);
    NothingSigned(cr, c, x);
    NothingSigned(cr, c, y);
  }

  lemma NothingSigned(cr: Crypto, c: Chain, b: Block)
    requires c.blocks != [] && Proposal(cr, c, b)
    ensures b.(signers := []) == b
  {
  }

  lemma VotersHaveProofs(cr: Crypto, kps: seq<KeyPair>, c: Chain, x: Block, y: Block)
    requires c.blocks != [] && AllVoters(cr, kps, c, x, y)
    ensures forall i :: 0 <= i < |kps| ==> ProofOf(cr, kps[i], c, x.header.slot).Some?
    ensures forall i :: 0 <= i < |kps| ==> ProofOf(cr, kps[i], c, y.header.slot).Some?
  {
    hide ProofOf, Voter, SignsCorrectly;
  }

  /** A listener commits the block of a valid certificate. */
  lemma ListenerCommits(cr: Crypto, g: Genesis, kp: KeyPair, b: Block, ss: seq<Signer>, kw: KeyPair, now: U64)
    requires GenesisChain(cr, g).blocks != [] && DistinctSigners(ss) && |ss| <= COMMITTEE_MAX && DistinctGenesis(g)
    requires var c := GenesisChain(cr, g);
      && Built(cr, c, kp, b.header.slot, now, b) && Proposal(cr, c, b) && |c.ledger.accounts| < W32
      && Certified(cr, c, b.(signers := ss))
    ensures var full := b.(signers := ss);
      && AllClean(Listener(kw, full, now).events)
      && StateOf(cr, g, Listener(kw, full, now)).chain.blocks == GenesisChain(cr, g).blocks + [full]
  {
    hide GenesisChain, Built, Proposal, DistinctGenesis, Certified, HandleBlock, StateOf, Start, ThresholdMet, AllClean,
      DistinctSigners;
    var c, full := GenesisChain(cr, g), b.(signers := ss);
    BuiltShape(cr, c, kp, b.header.slot, now, b);
    assert Wire(full);
    GenesisLiveDistinct(cr, g);
    CertifiedMeetsThreshold(cr, c, full);
    CertifiedBlockIsCommitted(cr, g, kw, kp, b.header.slot, b, ss, now);
    ListenerState(cr, g, kw, full, now);
  }

  lemma GenesisLiveDistinct(cr: Crypto, g: Genesis)
    requires DistinctGenesis(g)
    ensures DistinctLive(GenesisChain(cr, g).live)
  {
    hide GenesisBlock, GenesisLedger, GenesisLive;
    GenesisLiveFacts(g, |g.accounts|);
  }

  lemma DifferentTips(c: Chain, d: Chain, below: seq<Block>, x: Block, y: Block)
    requires c.blocks == below + [x] && d.blocks == below + [y] && !SameContent(x, y)
    ensures !NoFork(c, d)
  {
    hide SameContent;
    assert c.blocks[|below|] == x && d.blocks[|below|] == y;
  }
}
