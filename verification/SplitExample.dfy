/**
 One network that honest votes split: two validators with the minimum stake, two empty blocks for slots
 1 and 2. The primitives are small stand-ins: the signature of a key is that key written twice.
 */
module SplitExample {
  import opened Words
  import opened Types
  import opened Codec
  import opened Isqrt
  import opened Table
  import opened Priority
  import opened Ledgers
  import opened Snapshots
  import opened Quorum
  import opened Accountability
  import opened Market
  import opened Chains
  import opened Agreement
  import opened Voting
  import opened Network
  import opened TwoVotes
  import opened Split

  function Key(x: Byte): KeyPair {
    var pk: Addr := seq(32, _ => x);
    KeyPair(pk, pk)
  }

  const LOW := Key(7)
  const HIGH := Key(255)

  function Sign(sk: Bytes, m: Bytes): Sig {
    if |sk| == 32 then sk + sk else ZERO_SIG
  }

  predicate Verify(s: Sig, m: Bytes, pk: Addr) {
    s == Sign(pk, m)
  }

  function Spread(hi: U64, lo: U64): Hash {
    hide Be64;
    Be64(hi) + Be64(lo) + ZERO8 + ZERO8
  }

  /** Headers hash to their slot, proofs to their first half, and that key decides the priority. */
  function Digest(b: Bytes): Hash {
    hide ParseHeader, Spread;
    if |b| == 13 + HEADER_BYTES then Spread(ParseHeader(b[13..]).value.slot, 0)
    else if |b| == 79 then b[15..47]
    else if |b| == 41 then Spread(if b[9] == 255 then 1_000_000 else 0, 0)
    else ZERO_HASH
  }

  const CRYPTO := Crypto(Digest, Verify, Sign, (draw, weight, total) => true, (draw, validators) => true)

  const GENESIS := Genesis(7, 0, [GenesisAccount(LOW.pk, 0, MIN_STAKE), GenesisAccount(HIGH.pk, 0, MIN_STAKE)])

  const NOW: U64 := 10_000

  ghost function Origin(): (c: Chain)
    ensures c.blocks != []
  {
    GenesisChain(CRYPTO, GENESIS)
  }

  lemma KeysDiffer()
    ensures LOW.pk != HIGH.pk && LOW.pk != REWARD_POOL && HIGH.pk != REWARD_POOL
  {
    assert LOW.pk[0] == 7 && HIGH.pk[0] == 255 && REWARD_POOL[0] == 0x52;
  }

  /** Two validators with the minimum stake beside the pool. */
  lemma Accounts()
    ensures var validator, pool := Holdings(0, 0, MIN_STAKE, 0), Holdings(POOL_SEED, 0, 0, 0);
      Origin().ledger.accounts == map[REWARD_POOL := pool, LOW.pk := validator, HIGH.pk := validator]
    ensures Origin().live == [LiveEntry(LOW.pk, 0), LiveEntry(HIGH.pk, 0)]
  {
    hide GenesisBlock, Key;
    KeysDiffer();
    assert GenesisLedger(GENESIS, 0).accounts == map[REWARD_POOL := Holdings(POOL_SEED, 0, 0, 0)];
    assert GenesisLive(GENESIS, 0) == [];
    assert GenesisLedger(GENESIS, 1) == Set(GenesisLedger(GENESIS, 0), LOW.pk, Holdings(0, 0, MIN_STAKE, 0));
    assert GenesisLive(GENESIS, 1) == [LiveEntry(LOW.pk, 0)];
    assert GenesisLive(GENESIS, 2) == GenesisLive(GENESIS, 1) + [LiveEntry(HIGH.pk, 0)];
  }

  lemma MinimumWeight()
    ensures Sqrt(MIN_STAKE) == 10_000
  {
    SqrtUnique(MIN_STAKE, 10_000);
  }

  lemma Weights()
    ensures TotalWeight(Origin().ledger) == 20_000
    ensures WeightOf(Origin().ledger, [LOW.pk]) == WeightOf(Origin().ledger, [HIGH.pk]) == 10_000
    ensures WeightOf(Origin().ledger, [LOW.pk, HIGH.pk]) == 20_000
  {
    hide Total, GenesisChain, Key, Sqrt;
    KeysDiffer();
    Accounts();
    MinimumWeight();
    var m := Origin().ledger.accounts;
    TotalRemove(m, Weight, LOW.pk);
    TotalRemove(m - {LOW.pk}, Weight, HIGH.pk);
    var rest := m - {LOW.pk} - {HIGH.pk};
    TotalRemove(rest, Weight, REWARD_POOL);
    assert rest - {REWARD_POOL} == map[];
    assert Total<Holdings>(map[], Weight) == 0 by { NothingWeighs(); }
    Singleton(Origin().ledger, LOW.pk);
    Singleton(Origin().ledger, HIGH.pk);
    assert [LOW.pk, HIGH.pk][1..] == [HIGH.pk];
    WeightOfHead(Origin().ledger, [LOW.pk, HIGH.pk]);
  }

  lemma Singleton(l: Ledger, a: Bytes)
    ensures WeightOf(l, [a]) == Weight(Get(l, a))
  {
    assert [a][1..] == [];
    WeightOfHead(l, [a]);
    WeightOfNone(l);
  }

  lemma NothingWeighs()
    ensures Total<Holdings>(map[], Weight) == 0
  {
  }

  lemma LiveNow(l: Ledger)
    requires SameStakes(Origin().ledger, l)
    ensures LiveWeight(l, Origin().live, 0) == 20_000
  {
    hide GenesisChain, Key, TotalWeight, WeightOf, SameStakes;
    Accounts();
    Weights();
    var live := Origin().live;
    assert live[..1] == [LiveEntry(LOW.pk, 0)] && live[..1][..0] == [];
    assert LiveAddrs(live[..1], 0) == [LOW.pk];
    assert LiveAddrs(live, 0) == [LOW.pk, HIGH.pk];
    SameStakesSameWeights(Origin().ledger, l, [LOW.pk, HIGH.pk]);
  }

  lemma KeysSign(kp: KeyPair)
    requires kp == LOW || kp == HIGH
    ensures SignsCorrectly(CRYPTO, kp)
  {
  }

  /** The empty block a validator builds on genesis. */
  ghost function BlockBy(kp: KeyPair, slot: U64): (b: Block)
    requires kp == LOW || kp == HIGH
    ensures BuildBlock(CRYPTO, Origin(), slot, kp, []) == Some(b)
  {
    hide BuildBlock, Key;
    CanBuild(kp, slot);
    BuildBlock(CRYPTO, Origin(), slot, kp, []).value
  }

  lemma CanBuild(kp: KeyPair, slot: U64)
    requires kp == LOW || kp == HIGH
    ensures BuildBlock(CRYPTO, Origin(), slot, kp, []).Some?
  {
    hide StateRoot, TxRoot, PayLeader, SeedFor, BlockHash, ExpectedBaseFee, SlotTime, GenesisChain, Key;
    HaveStake();
  }

  lemma HaveStake()
    ensures Get(Origin().ledger, LOW.pk).stake == Get(Origin().ledger, HIGH.pk).stake == MIN_STAKE
  {
    hide GenesisChain, Key;
    KeysDiffer();
    Accounts();
  }

  lemma BlockByShape(kp: KeyPair, slot: U64)
    requires kp == LOW || kp == HIGH
    ensures var h := BlockBy(kp, slot).header;
      && h.slot == slot && h.version == BLOCK_VERSION && h.height == 1 && h.proposer == kp.pk
      && h.parentHash == BlockHash(CRYPTO, Tip(Origin())) && h.vrfProof == Sign(kp.pk, [])
    ensures BlockBy(kp, slot).txs == [] && BlockBy(kp, slot).signers == []
  {
    hide StateRoot, TxRoot, PayLeader, SeedFor, BlockHash, ExpectedBaseFee, SlotTime;
    HaveStake();
  }

  /** Late enough in slot 5, both blocks are built as the protocol builds them. */
  lemma IsBuilt(kp: KeyPair, slot: U64)
    requires (kp == LOW || kp == HIGH) && 1 <= slot <= 2
    ensures Built(CRYPTO, Origin(), kp, slot, NOW, BlockBy(kp, slot)) && Proposal(CRYPTO, Origin(), BlockBy(kp, slot))
  {
    hide BuildBlock, SignsCorrectly, SeedFor, BlockHash, Digest, Key, GenesisChain, SlotTime, CurrentSlot;
    KeysSign(kp);
    BlockByShape(kp, slot);
    InTime(slot);
    AtGenesis();
    ProofVerifies(kp, slot);
  }

  lemma InTime(slot: U64)
    requires 1 <= slot <= 2
    ensures Tip(Origin()).slot == 0 && Origin().genesisMs == 0
    ensures SlotTime(Origin(), slot) <= (NOW + 1500) % W64 && CurrentSlot(0, NOW) > (slot + 1) % W64
  {
    hide GenesisLedger, GenesisLive, StateRoot;
  }

  lemma ProofVerifies(kp: KeyPair, slot: U64)
    requires kp == LOW || kp == HIGH
    ensures VrfVerify(CRYPTO, Sign(kp.pk, []), LeaderAlpha(SeedFor(CRYPTO, Origin(), slot), slot), kp.pk)
  {
    hide SeedFor, LeaderAlpha, GenesisChain, Key;
  }

  lemma SlotHash(h: Header)
    ensures BlockHash(CRYPTO, h)[..8] == Be64(h.slot)
  {
    hide ParseHeader, HeaderBytes, Be64;
    var pre := BlockPreimage(h);
    assert |pre| == 13 + HEADER_BYTES && pre[13..] == HeaderBytes(h);
    assert HeaderBytes(h) + [] == HeaderBytes(h);
    HeaderRoundTrip(h, []);
  }

  lemma HashesDiffer(g: Header, h: Header)
    requires g.slot != h.slot
    ensures BlockHash(CRYPTO, g) != BlockHash(CRYPTO, h)
  {
    hide BlockHash, Be64;
    SlotHash(g);
    SlotHash(h);
    Rd64Be64(g.slot);
    Rd64Be64(h.slot);
  }

  /** The score of a validator is decided by its key. */
  lemma ScoreOf(kp: KeyPair)
    requires kp == LOW || kp == HIGH
    ensures var g := Digest(Ascii("AGCH:PRIO") + VrfOut(CRYPTO, Sign(kp.pk, [])));
      Rd64(g[..8]) == (if kp == HIGH then 1_000_000 else 0) && Rd64(g[8..16]) == 0
  {
    hide Be64, Rd64, ParseHeader;
    KeysDiffer();
    var proof := Sign(kp.pk, []);
    assert (Ascii("AGCH:VRF-OUT:v1") + proof)[15..47] == kp.pk;
    assert VrfOut(CRYPTO, proof) == kp.pk;
    var b := Ascii("AGCH:PRIO") + kp.pk;
    assert |b| == 41 && b[9] == kp.pk[0];
    var hi: U64 := if b[9] == 255 then 1_000_000 else 0;
    assert Digest(b) == Spread(hi, 0);
    assert Digest(b)[..8] == Be64(hi) && Digest(b)[8..16] == Be64(0);
    Rd64Be64(hi);
    Rd64Be64(0);
  }

  lemma Quotients()
    ensures Quotient(0, 0, 10_000) < Quotient(1_000_000, 0, 10_000)
  {
  }

  lemma LowGoesFirst(x: Block, y: Block)
    requires x == BlockBy(HIGH, 1) && y == BlockBy(LOW, 2)
    ensures Less(PriorityOf(CRYPTO, Origin().ledger, y.header), PriorityOf(CRYPTO, Origin().ledger, x.header))
  {
    hide Less, Sqrt, BuildBlock, Digest, Quotient, GenesisChain, VrfOut, ComputePriority, Key;
    KeysDiffer();
    HaveStake();
    MinimumWeight();
    BlockByShape(HIGH, 1);
    BlockByShape(LOW, 2);
    ScoreOf(LOW);
    ScoreOf(HIGH);
    PriorityOrder(CRYPTO, VrfOut(CRYPTO, y.header.vrfProof), 10_000, VrfOut(CRYPTO, x.header.vrfProof), 10_000);
    Quotients();
  }

  /** Neither validator passes the gates alone. */
  lemma NobodyAlone(kp: KeyPair, s: Signer)
    requires (kp == LOW || kp == HIGH) && s.signer == kp.pk
    ensures !ThresholdMet(Origin(), []) && !ThresholdMet(Origin(), [s])
  {
    hide Key, TotalWeight, WeightOf, LiveWeight, GenesisLedger, GenesisLive, GenesisBlock;
    Weights();
    SameStakesReflexive(Origin().ledger, Origin().ledger);
    LiveNow(Origin().ledger);
    assert SignerAddrs([s]) == [kp.pk] && SignerAddrs([]) == [];
    WeightOfNone(Origin().ledger);
  }

  lemma IsVoter(kp: KeyPair, x: Block, y: Block)
    requires kp == LOW || kp == HIGH
    ensures Voter(CRYPTO, kp, Origin(), x, y)
  {
    hide GenesisChain, Key, TotalWeight, ThresholdMet, SeedFor, VrfProve, Draw;
    HaveStake();
    forall s: Signer | s.signer == kp.pk ensures !ThresholdMet(Origin(), [s]) && !ThresholdMet(Origin(), []) {
      NobodyAlone(kp, s);
    }
    NobodyAlone(kp, Signer(kp.pk, ZERO_SIG, ZERO_SIG));
  }

  /** Both together have everything. */
  lemma BothAreEnough(cr: Crypto, a: KeyPair, z: KeyPair, c: Chain, b: Block)
    requires c.blocks != [] && Height(c) == 0 && a.pk != z.pk
    requires ProofOf(cr, a, c, b.header.slot).Some? && ProofOf(cr, z, c, b.header.slot).Some?
    requires TotalWeight(c.ledger) == WeightOf(c.ledger, [a.pk, z.pk]) == 20_000
    requires LiveWeight(PostLedger(cr, c.ledger, b), c.live, 0) == 20_000
    ensures Enough(cr, [a, z], c, b)
  {
    hide TotalWeight, WeightOf, LiveWeight, PostLedger, ProofOf, EntryFor, Certificate;
    var kps, ss := [a, z], SignerAddrs(Certificate(cr, [a, z], c, b));
    CertificateIsClean(cr, kps, c, b);
    assert ss[0] == kps[0].pk && ss[1] == kps[1].pk;
    assert ss == [a.pk, z.pk];
  }

  lemma FullyLive(b: Block)
    requires b.txs == []
    ensures LiveWeight(PostLedger(CRYPTO, Origin().ledger, b), Origin().live, 0) == 20_000
  {
    hide GenesisChain, LiveWeight, PostLedger, SameStakes;
    PlainBlocksKeepStakes(CRYPTO, Origin().ledger, b);
    LiveNow(PostLedger(CRYPTO, Origin().ledger, b));
  }

  lemma AtGenesis()
    ensures Height(Origin()) == 0
  {
    hide GenesisLedger, GenesisLive, GenesisBlock;
  }

  lemma IsContested()
    ensures Contested(CRYPTO, GENESIS, HIGH, BlockBy(HIGH, 1), LOW, BlockBy(LOW, 2), [LOW, HIGH], NOW)
  {
    hide Key, Built, Proposal, BlockHash, PriorityOf, Less, Enough, Voter, SignsCorrectly, ProofOf, GenesisChain,
      BuildBlock, Digest, TotalWeight, WeightOf, LiveWeight, PostLedger;
    var x, y := BlockBy(HIGH, 1), BlockBy(LOW, 2);
    KeysDiffer();
    IsBuilt(HIGH, 1);
    IsBuilt(LOW, 2);
    BlockByShape(HIGH, 1);
    BlockByShape(LOW, 2);
    HashesDiffer(x.header, y.header);
    LowGoesFirst(x, y);
    IsVoter(LOW, x, y);
    IsVoter(HIGH, x, y);
    KeysSign(LOW);
    KeysSign(HIGH);
    VotersProve(LOW, x, y);
    VotersProve(HIGH, x, y);
    AtGenesis();
    Weights();
    FullyLive(x);
    FullyLive(y);
    BothAreEnough(CRYPTO, LOW, HIGH, Origin(), x);
    BothAreEnough(CRYPTO, LOW, HIGH, Origin(), y);
    Accounts();
  }

  lemma VotersProve(kp: KeyPair, x: Block, y: Block)
    requires Voter(CRYPTO, kp, Origin(), x, y)
    ensures ProofOf(CRYPTO, kp, Origin(), x.header.slot).Some? && ProofOf(CRYPTO, kp, Origin(), y.header.slot).Some?
  {
    hide ProofOf, ThresholdMet, GenesisChain;
  }

  /**
   Both validators follow the protocol and vote for both blocks; two peers that each hear one of the
   certified blocks end up on different chains.
   */
  lemma TheNetworkSplits() returns (x: Block, y: Block)
    ensures x == BlockBy(HIGH, 1).(signers := x.signers) && y == BlockBy(LOW, 2).(signers := y.signers)
    ensures Splits(CRYPTO, GENESIS, [LOW, HIGH], LOW, x, y, NOW)
  {
    hide GenesisChain, BlockBy, Contested, Splits, Key;
    IsContested();
    x, y := HonestVotesSplitTheNetwork(CRYPTO, GENESIS, HIGH, BlockBy(HIGH, 1), LOW, BlockBy(LOW, 2), [LOW, HIGH],
                                       LOW, NOW);
  }

  // ---------------------------------------------------------------------------
  // Repeated signers
  // ---------------------------------------------------------------------------

  lemma RepeatedEntryIsOk(cr: Crypto, kp: KeyPair, c: Chain, b: Block, v: View)
    requires c.blocks != [] && ProofOf(cr, kp, c, b.header.slot).Some? && SignsCorrectly(cr, kp)
    requires v.seed == SeedFor(cr, c, b.header.slot)
    ensures EntryOk(cr, c.ledger, v, b, EntryFor(cr, kp, c, b))
  {
    hide SeedFor, TotalWeight, SignerOk, ProofOf, EntryFor, CommitteeAlpha, VoteMessage, BlockHash;
    EntryIsOk(cr, kp, c, b);
  }

  lemma RepeatsCommit(cr: Crypto, a: KeyPair, x: Block, z: KeyPair, y: Block, c: Chain)
    requires c.blocks != [] && Height(c) == 0 && SignsCorrectly(cr, a) && SignsCorrectly(cr, z) && a.pk != z.pk
    requires ProofOf(cr, a, c, x.header.slot).Some? && ProofOf(cr, z, c, y.header.slot).Some?
    requires TotalWeight(c.ledger) == 20_000
      && Weight(Get(c.ledger, a.pk)) == Weight(Get(c.ledger, z.pk)) == 10_000
    requires LiveWeight(PostLedger(cr, c.ledger, x), c.live, 0) == 20_000
      && LiveWeight(PostLedger(cr, c.ledger, y), c.live, 0) == 20_000
    ensures var b, d := x.(signers := Repeated(EntryFor(cr, a, c, x), 67)),
      y.(signers := Repeated(EntryFor(cr, z, c, y), 67));
      Certified(cr, c, b) && Certified(cr, c, d) && !DoubleSigner(cr, c.ledger, b, d)
  {
    hide SeedFor, TotalWeight, LiveWeight, PostLedger, ProofOf, EntryFor, EntryOk, Weight, Repeated, SignsCorrectly,
      Get, CommitOk, DoubleSigner;
    var s, t := EntryFor(cr, a, c, x), EntryFor(cr, z, c, y);
    var b, d := x.(signers := Repeated(s, 67)), y.(signers := Repeated(t, 67));
    var vb := View(SeedFor(cr, c, x.header.slot), PostLedger(cr, c.ledger, x), c.live, 0);
    var vd := View(SeedFor(cr, c, y.header.slot), PostLedger(cr, c.ledger, y), c.live, 0);
    RepeatedEntryIsOk(cr, a, c, x, vb);
    RepeatedEntryIsOk(cr, z, c, y, vd);
    SignersDoNotMatter(cr, c, x, b, vb, s);
    SignersDoNotMatter(cr, c, y, d, vd, t);
    EntryIsOurs(cr, a, c, x);
    EntryIsOurs(cr, z, c, y);
    DuplicatesDefeatTheFloor(cr, c.ledger, b, vb, s, d, vd, t);
  }

  lemma EntryIsOurs(cr: Crypto, kp: KeyPair, c: Chain, b: Block)
    requires c.blocks != [] && ProofOf(cr, kp, c, b.header.slot).Some?
    ensures EntryFor(cr, kp, c, b).signer == kp.pk
  {
    hide ProofOf, Entered;
  }

  lemma SignersDoNotMatter(cr: Crypto, c: Chain, x: Block, b: Block, v: View, s: Signer)
    requires b.header == x.header && b.txs == x.txs && EntryOk(cr, c.ledger, v, x, s)
    ensures EntryOk(cr, c.ledger, v, b, s) && PostLedger(cr, c.ledger, b) == PostLedger(cr, c.ledger, x)
  {
    hide SignerOk, ExecTxs, PayLeader;
  }

  lemma HalfEach()
    ensures TotalWeight(Origin().ledger) == 20_000
    ensures Weight(Get(Origin().ledger, LOW.pk)) == Weight(Get(Origin().ledger, HIGH.pk)) == 10_000
  {
    hide GenesisChain, Key, TotalWeight, WeightOf, Weight;
    Weights();
    Singleton(Origin().ledger, LOW.pk);
    Singleton(Origin().ledger, HIGH.pk);
  }

  /** Two different blocks of height 1 without transactions. */
  lemma OneHeight()
    ensures var x, y := BlockBy(HIGH, 1), BlockBy(LOW, 2);
      && BlockHash(CRYPTO, x.header) != BlockHash(CRYPTO, y.header) && x.header.height == y.header.height
      && x.txs == [] && y.txs == []
  {
    hide GenesisChain, BuildBlock, Key, BlockHash;
    BlockByShape(HIGH, 1);
    BlockByShape(LOW, 2);
    HashesDiffer(BlockBy(HIGH, 1).header, BlockBy(LOW, 2).header);
  }

  lemma IsDrawn(kp: KeyPair, x: Block, y: Block)
    requires kp == LOW || kp == HIGH
    ensures ProofOf(CRYPTO, kp, Origin(), x.header.slot).Some? && ProofOf(CRYPTO, kp, Origin(), y.header.slot).Some?
  {
    hide GenesisChain, Key, Voter, ProofOf;
    IsVoter(kp, x, y);
    VotersProve(kp, x, y);
  }

  /** Each validator alone, by repeating its entry, commits a block of height 1, and nobody signed both. */
  lemma RepetitionConvictsNobody() returns (x: Block, y: Block)
    ensures x == BlockBy(HIGH, 1).(signers := x.signers) && y == BlockBy(LOW, 2).(signers := y.signers)
    ensures Certified(CRYPTO, Origin(), x) && Certified(CRYPTO, Origin(), y)
    ensures BlockHash(CRYPTO, x.header) != BlockHash(CRYPTO, y.header) && x.header.height == y.header.height
    ensures !DoubleSigner(CRYPTO, Origin().ledger, x, y)
  {
    hide GenesisChain, BlockBy, BuildBlock, Key, TotalWeight, WeightOf, LiveWeight, PostLedger, SignsCorrectly,
      ProofOf, Certified, EntryFor, Repeated, Weight, BlockHash, DoubleSigner, Get;
    var a, b := BlockBy(HIGH, 1), BlockBy(LOW, 2);
    KeysDiffer();
    OneHeight();
    AtGenesis();
    HalfEach();
    FullyLive(a);
    FullyLive(b);
    KeysSign(LOW);
    KeysSign(HIGH);
    IsDrawn(LOW, a, b);
    IsDrawn(HIGH, a, b);
    RepeatsCommit(CRYPTO, LOW, a, HIGH, b, Origin());
    x := a.(signers := Repeated(EntryFor(CRYPTO, LOW, Origin(), a), 67));
    y := b.(signers := Repeated(EntryFor(CRYPTO, HIGH, Origin(), b), 67));
  }
}
