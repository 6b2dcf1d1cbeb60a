/**
 Certificates a node gathers, and the safety of a network of nodes
 (src/consensus.c:391-414, 474-651; src/chain.c:910-971).
 */
module Network {
  import opened Words
  import opened Types
  import opened Codec
  import opened Isqrt
  import opened Ledgers
  import opened Effects
  import opened Table
  import opened Snapshots
  import opened Quorum
  import opened Chains
  import opened Market
  import opened Agreement
  import opened Forks
  import Pool
  import opened Voting
  import opened VoteLocks

  // ---------------------------------------------------------------------------
  // Signer lists
  // ---------------------------------------------------------------------------

  ghost predicate Tidy(cr: Crypto, p: Pending) {
    p.Held? ==>
      && DistinctSigners(p.signers) && |p.signers| <= COMMITTEE_MAX
      && p.hash == BlockHash(cr, p.block.header) && p.block.header.txCount == |p.block.txs|
  }

  ghost predicate RingTidy(cr: Crypto, n: Node) {
    forall i :: 0 <= i < |n.pending| ==> Tidy(cr, n.pending[i])
  }

  lemma AddKeepsDistinct(ss: seq<Signer>, s: Signer)
    requires DistinctSigners(ss) && |ss| <= COMMITTEE_MAX
    ensures DistinctSigners(AddSigner(ss, s)) && |AddSigner(ss, s)| <= COMMITTEE_MAX
  {
    var r := AddSigner(ss, s);
    if r != ss {
      var addrs := SignerAddrs(r);
      forall i, j | 0 <= i < j < |addrs| ensures addrs[i] != addrs[j] {
        assert addrs[i] == r[i].signer == ss[i].signer == SignerAddrs(ss)[i];
        if j < |ss| {
          assert addrs[j] == ss[j].signer == SignerAddrs(ss)[j];
        }
      }
    }
  }

  lemma {:induction false} MergeKeepsDistinct(ss: seq<Signer>, ts: seq<Signer>)
    requires DistinctSigners(ss) && |ss| <= COMMITTEE_MAX
    ensures DistinctSigners(Merge(ss, ts)) && |Merge(ss, ts)| <= COMMITTEE_MAX
  {
    hide AddSigner, DistinctSigners;
    if ts != [] {
      MergeKeepsDistinct(ss, ts[..|ts| - 1]);
      AddKeepsDistinct(Merge(ss, ts[..|ts| - 1]), ts[|ts| - 1]);
    }
  }

  // ---------------------------------------------------------------------------
  // Every run of a node keeps its ring tidy and its chain a run of accept_block
  // ---------------------------------------------------------------------------

  ghost predicate Reached(cr: Crypto, g: Genesis, c: Chain) {
    exists offers :: c == Run(cr, g, offers)
  }

  /** Every stored block announces its transaction count and lists no signer twice. */
  ghost predicate CleanChain(c: Chain) {
    forall h :: 1 <= h < |c.blocks| ==> CleanBlock(c.blocks[h])
  }

  predicate CleanBlock(b: Block) {
    b.header.txCount == |b.txs| && DistinctSigners(b.signers)
  }

  ghost predicate Sound(cr: Crypto, g: Genesis, n: Node)
    requires Sized(n)
  {
    RingTidy(cr, n) && Reached(cr, g, n.chain) && CleanChain(n.chain)
  }

  /** Received blocks come through the decoder, with no signer listed twice. */
  predicate Clean(e: Event) {
    e.BlockIn? ==> Wire(e.b) && DistinctSigners(e.b.signers)
  }

  lemma AcceptReaches(cr: Crypto, g: Genesis, c: Chain, b: Block, now: U64)
    requires Reached(cr, g, c) && c.blocks != [] && CleanChain(c) && CleanBlock(b)
    ensures Reached(cr, g, Accept(cr, c, b, now)) && CleanChain(Accept(cr, c, b, now))
  {
    hide BlockVerdict, CleanBlock, Run;
    var offers :| c == Run(cr, g, offers);
    RunExtends(cr, g, offers, b, now);
    assert Accept(cr, c, b, now) == Run(cr, g, offers + [Offer(b, now)]);
  }

  lemma RunExtends(cr: Crypto, g: Genesis, offers: seq<Offer>, b: Block, now: U64)
    ensures Run(cr, g, offers + [Offer(b, now)]) == Accept(cr, Run(cr, g, offers), b, now)
  {
    hide Accept, GenesisChain;
    var more := offers + [Offer(b, now)];
    assert more[..|more| - 1] == offers;
  }

  lemma CommitKeepsSound(cr: Crypto, g: Genesis, n: Node, i: nat, force: bool, now: U64)
    requires Sized(n) && i < RING && Sound(cr, g, n)
    ensures Sound(cr, g, TryCommit(cr, n, i, force, now))
  {
    hide BlockVerdict, ThresholdMet, InGrace, Accept, Reached, CleanChain, DistinctSigners, BlockHash;
    var p := n.pending[i];
    assert Tidy(cr, p);
    if p.Held? {
      AcceptReaches(cr, g, n.chain, p.block.(signers := p.signers), now);
    }
  }

  lemma PutKeepsSound(cr: Crypto, g: Genesis, n: Node, i: nat, p: Pending)
    requires Sized(n) && i < RING && Sound(cr, g, n) && Tidy(cr, p)
    ensures Sound(cr, g, n.(pending := n.pending[i := p]))
  {
    hide Tidy, Reached, CleanChain;
  }

  lemma StashKeepsSound(cr: Crypto, g: Genesis, n: Node, b: Block, now: U64)
    requires Sized(n) && Sound(cr, g, n) && Wire(b) && DistinctSigners(b.signers)
    ensures Sound(cr, g, Stash(cr, n, b, now).0)
  {
    hide Alloc, PriorityOf, NoteProposal, Reached, CleanChain, DistinctSigners, BlockHash;
    var i, priority := Alloc(n.pending), PriorityOf(cr, n.chain.ledger, b.header);
    PutKeepsSound(cr, g, n, i, Held(false, b.(signers := []), BlockHash(cr, b.header), priority, b.signers, now, 0));
  }

  lemma BlockKeepsSound(cr: Crypto, g: Genesis, n: Node, b: Block, now: U64)
    requires Sized(n) && Sound(cr, g, n) && Wire(b) && DistinctSigners(b.signers)
    ensures Sound(cr, g, HandleBlock(cr, n, b, now))
  {
    hide TryCommit, Welcome, Merge, Stash, Find, Reached, CleanChain, DistinctSigners, BlockHash, RequestGap;
    var i := Find(n.pending, BlockHash(cr, b.header));
    if i < RING {
      var p := n.pending[i];
      assert Tidy(cr, p);
      MergeKeepsDistinct(p.signers, b.signers);
      var q := p.(signers := Merge(p.signers, b.signers));
      PutKeepsSound(cr, g, n, i, q);
      CommitKeepsSound(cr, g, n.(pending := n.pending[i := q]), i, false, now);
    } else if b.header.height > Height(n.chain) + 1 {
      RequestIsQuiet(n, b.header.height, now);
    } else {
      var (m, j) := Stash(cr, n, b, now);
      StashKeepsSound(cr, g, n, b, now);
      CommitKeepsSound(cr, g, m, j, false, now);
    }
  }

  lemma VoteKeepsSound(cr: Crypto, g: Genesis, n: Node, height: U64, hash: Hash, s: Signer, now: U64)
    requires Sized(n) && Sound(cr, g, n)
    ensures Sound(cr, g, HandleVote(cr, n, height, hash, s, now))
  {
    hide TryCommit, VoteOk, AddSigner, Lists, Find, Reached, CleanChain, DistinctSigners, BlockHash;
    var i := Find(n.pending, hash);
    if i < RING {
      var p := n.pending[i];
      assert Tidy(cr, p);
      AddKeepsDistinct(p.signers, s);
      var q := p.(signers := AddSigner(p.signers, s));
      PutKeepsSound(cr, g, n, i, q);
      CommitKeepsSound(cr, g, n.(pending := n.pending[i := q]), i, false, now);
    }
  }

  lemma CastKeepsSound(cr: Crypto, g: Genesis, n: Node, i: nat, lock: Bytes)
    requires Sized(n) && i < RING && n.pending[i].Held? && Sound(cr, g, n)
    ensures Sound(cr, g, CastVote(cr, n, i, lock))
  {
    hide CommitteeProof, NoteVote, AddSigner, OurEntry, Reached, CleanChain, DistinctSigners, BlockHash;
    var p := n.pending[i];
    assert Tidy(cr, p);
    match CommitteeProof(cr, n, p.block.header.slot)
    case None =>
    case Some(proof) =>
      AddKeepsDistinct(p.signers, OurEntry(cr, n.kp, p, proof));
      PutKeepsSound(cr, g, n, i, p.(signers := AddSigner(p.signers, OurEntry(cr, n.kp, p, proof))));
  }

  lemma PhaseKeepsSound(cr: Crypto, g: Genesis, n: Node, slot: U64, now: U64)
    requires Sized(n) && Sound(cr, g, n)
    ensures Sound(cr, g, VotePhase(cr, n, slot, now))
  {
    hide TryCommit, CastVote, Lowest, Backed, Touch, Open, Tidy, Reached, CleanChain;
    var h, best := Height(n.chain) + 1, Lowest(n.pending, Height(n.chain) + 1);
    if n.validator && Open(n.slotVotes, slot) && best < RING {
      var m := n.(slotVotes := Touch(n.slotVotes, slot).0);
      if Locked(n, n.pending[best].priority) {
        var i := Backed(n.pending, h, n.voteBlock);
        if i < RING {
          CastKeepsSound(cr, g, m, i, n.votePriority);
          CommitKeepsSound(cr, g, CastVote(cr, m, i, n.votePriority), i, false, now);
        }
      } else {
        var p := n.pending[best];
        CastKeepsSound(cr, g, m, best, p.priority);
        var v := CastVote(cr, m, best, p.priority).(voteHeight := h, voteBlock := p.hash, votePriority := p.priority);
        CommitKeepsSound(cr, g, v, best, false, now);
      }
    }
  }

  lemma {:induction false} SealKeepsSound(cr: Crypto, g: Genesis, n: Node, slot: U64, k: nat, now: U64)
    requires Sized(n) && k <= RING && Sound(cr, g, n)
    ensures Sound(cr, g, SealUpTo(cr, n, slot, k, now))
  {
    hide TryCommit, Sound;
    if k > 0 {
      SealKeepsSound(cr, g, n, slot, k - 1, now);
      CommitKeepsSound(cr, g, SealUpTo(cr, n, slot, k - 1, now), k - 1, true, now);
    }
  }

  lemma BuiltIsWire(cr: Crypto, c: Chain, slot: U64, kp: KeyPair, candidates: seq<Tx>)
    requires c.blocks != [] && |candidates| <= 256
    ensures var b := BuildBlock(cr, c, slot, kp, candidates);
      b.Some? ==> Wire(b.value) && DistinctSigners(b.value.signers)
  {
    hide Select, StateRoot, TxRoot, PayLeader, SeedFor, BlockHash, ExpectedBaseFee, SlotTime, VrfProve;
    SelectIsShort(cr, c.ledger, candidates, slot, ExpectedBaseFee(c));
  }

  lemma ProposeKeepsSound(cr: Crypto, g: Genesis, n: Node, slot: U64, now: U64)
    requires Sized(n) && Sound(cr, g, n)
    ensures Sound(cr, g, Propose(cr, n, slot, now))
  {
    hide TryCommit, BuildBlock, Stash, Tidy, Reached, CleanChain, DistinctSigners, Wire, Leads, Candidates;
    var pruned := n.(pool := Pool.Unexpired(n.pool, slot));
    BuiltIsWire(cr, n.chain, slot, n.kp, Candidates(n.pool));
    match BuildBlock(cr, n.chain, slot, n.kp, Candidates(n.pool))
    case None =>
    case Some(b) =>
      var (m, i) := Stash(cr, pruned, b, now);
      StashKeepsSound(cr, g, pruned, b, now);
      CommitKeepsSound(cr, g, m.(blocks := n.blocks + [b]), i, false, now);
  }

  lemma StepKeepsSound(cr: Crypto, g: Genesis, n: Node, e: Event)
    requires Sized(n) && Sound(cr, g, n) && Bounded(e) && Clean(e)
    ensures Sound(cr, g, Step(cr, n, e))
  {
    hide HandleBlock, HandleVote, VotePhase, SealUpTo, Propose, Sound;
    match e
    case BlockIn(b, now) => BlockKeepsSound(cr, g, n, b, now);
    case VoteIn(height, hash, s, now) => VoteKeepsSound(cr, g, n, height, hash, s, now);
    case Vote(slot, now) => PhaseKeepsSound(cr, g, n, slot, now);
    case Seal(slot, now) => SealKeepsSound(cr, g, n, slot, RING, now);
    case Lead(slot, now) => ProposeKeepsSound(cr, g, n, slot, now);
    case Submit(tx, slot) => OnlyRingAndChain(cr, g, n, Step(cr, n, e));
  }

  lemma OnlyRingAndChain(cr: Crypto, g: Genesis, n: Node, r: Node)
    requires Sized(n) && Sized(r) && Sound(cr, g, n) && r.pending == n.pending && r.chain == n.chain
    ensures Sound(cr, g, r)
  {
  }

  predicate AllClean(es: seq<Event>) {
    forall i :: 0 <= i < |es| ==> Bounded(es[i]) && Clean(es[i])
  }

  /** One participant: its key, its role and everything that happened to it. */
  datatype Peer = Peer(kp: KeyPair, validator: bool, events: seq<Event>)

  ghost function StateOf(cr: Crypto, g: Genesis, p: Peer): (n: Node)
    requires AllClean(p.events)
    ensures Sized(n)
  {
    Steps(cr, Start(p.kp, p.validator, GenesisChain(cr, g)), p.events)
  }

  /**
   Over every run: no ring entry ever lists a signer twice or more than 256 signers, and the node's
   chain is what some sequence of `accept_block` calls gives, each block with distinct signers.
   */
  lemma {:induction false} RunsStaySound(cr: Crypto, g: Genesis, p: Peer)
    requires AllClean(p.events)
    ensures Sound(cr, g, StateOf(cr, g, p))
    decreases |p.events|
  {
    hide Step, Sound, GenesisChain, Run;
    if p.events == [] {
      StartIsSound(cr, g, p.kp, p.validator);
    } else {
      var init := p.(events := p.events[..|p.events| - 1]);
      RunsStaySound(cr, g, init);
      StepKeepsSound(cr, g, StateOf(cr, g, init), p.events[|p.events| - 1]);
    }
  }

  lemma StartIsSound(cr: Crypto, g: Genesis, kp: KeyPair, validator: bool)
    ensures GenesisChain(cr, g).blocks != [] && Sound(cr, g, Start(kp, validator, GenesisChain(cr, g)))
  {
    hide StateRoot, GenesisLedger, GenesisLive;
    assert GenesisChain(cr, g) == Run(cr, g, []);
  }

  // ---------------------------------------------------------------------------
  // Entries that do not verify
  // ---------------------------------------------------------------------------

  /** The proposal in entry `i` lists somebody whose entry `validate_commit` refuses. */
  ghost predicate Poisoned(cr: Crypto, n: Node, i: nat)
    requires Sized(n) && i < RING
  {
    var p := n.pending[i];
    && Candidate(p, Height(n.chain) + 1)
    && !SignersOk(cr, SeedFor(cr, n.chain, p.block.header.slot), n.chain.ledger, p.block.(signers := p.signers))
  }

  /** Received signers are stored unverified, and one bad entry keeps the proposal from ever being committed. */
  lemma PoisonedNeverCommits(cr: Crypto, n: Node, i: nat, force: bool, now: U64)
    requires Sized(n) && i < RING && Poisoned(cr, n, i)
    ensures var r := TryCommit(cr, n, i, force, now); r.chain == n.chain && Poisoned(cr, r, i)
  {
    hide ThresholdMet, InGrace, SignersOk, SeedFor, ExecTxs, PostLedger, TxRoot, StateRoot, Extend, LeaderOk, BlockHash,
      ExpectedBaseFee, SlotTime;
    var p := n.pending[i];
    var b := p.block.(signers := p.signers);
    assert BlockVerdict(cr, n.chain, b, now) != Ok by { RefusedEntryRefusesBlock(cr, n.chain, b, now); }
    hide BlockVerdict;
    NotADuplicate(cr, n.chain, b, now);
  }

  lemma RefusedEntryRefusesBlock(cr: Crypto, c: Chain, b: Block, now: U64)
    requires c.blocks != [] && !SignersOk(cr, SeedFor(cr, c, b.header.slot), c.ledger, b)
    ensures BlockVerdict(cr, c, b, now) != Ok
  {
    hide HeaderVerdict, SignersOk, SeedFor, ExecTxs, PostLedger, TxRoot, StateRoot, TotalWeight, Gates;
  }

  lemma NotADuplicate(cr: Crypto, c: Chain, b: Block, now: U64)
    requires c.blocks != [] && b.header.height == Height(c) + 1
    ensures BlockVerdict(cr, c, b, now) != Dup
  {
    hide SeedFor, ExecTxs, PostLedger, TxRoot, StateRoot, CommitOk, LeaderOk, BlockHash, ExpectedBaseFee, SlotTime;
  }

  /** No later message removes an entry: merging and voting only append. */
  lemma {:induction false} MergeOnlyAppends(ss: seq<Signer>, ts: seq<Signer>)
    ensures ss <= Merge(ss, ts)
  {
    if ts != [] {
      MergeOnlyAppends(ss, ts[..|ts| - 1]);
    }
  }

  // ---------------------------------------------------------------------------
  // The gates of the proposer side and of validation
  // ---------------------------------------------------------------------------

  ghost predicate SameStakes(l: Ledger, m: Ledger) {
    forall a: Bytes :: Get(l, a).stake == Get(m, a).stake
  }

  lemma SameStakesSameWeights(l: Ledger, m: Ledger, s: seq<Bytes>)
    requires SameStakes(l, m)
    ensures TotalWeight(l) == TotalWeight(m) && WeightOf(l, s) == WeightOf(m, s)
  {
    forall a ensures At(l.accounts, Weight, a) == At(m.accounts, Weight, a) {
      assert Get(l, a).stake == Get(m, a).stake;
    }
    TotalSame(l.accounts, m.accounts, Weight);
    ShareSame(l.accounts, m.accounts, Weight, s);
  }

  /** The gates of `try_commit_inner` and of `validate_commit` differ only in the live weight they use. */
  lemma GatesCompared(c: Chain, post: Ledger, ss: seq<Signer>)
    requires c.blocks != [] && |c.ledger.accounts| < W32 && DistinctLive(c.live)
    requires LiveWeight(post, c.live, Height(c)) == LiveWeight(c.ledger, c.live, Height(c))
    ensures var total := TotalWeight(c.ledger) % W64;
      ThresholdMet(c, ss) <==>
        total != 0 && Gates(WeightOf(c.ledger, SignerAddrs(ss)), LiveWeight(post, c.live, Height(c)), total)
  {
    hide LiveWeight, TotalWeight, WeightOf;
    TotalWeightFits(c.ledger);
    LiveAtMostTotal(c.ledger, c.live, Height(c));
  }

  /**
   For a block whose listed signers all verify and whose execution changes no stake, the gates of
   `try_commit_inner` pass if and only if `validate_commit` succeeds.
   */
  lemma SealingAgreesWithValidation(cr: Crypto, c: Chain, b: Block)
    requires c.blocks != [] && |c.ledger.accounts| < W32 && DistinctLive(c.live)
    requires SignersOk(cr, SeedFor(cr, c, b.header.slot), c.ledger, b)
    requires SameStakes(c.ledger, PostLedger(cr, c.ledger, b))
    ensures ThresholdMet(c, b.signers) <==>
      CommitOk(cr, SeedFor(cr, c, b.header.slot), c.ledger, PostLedger(cr, c.ledger, b), c.live, Height(c), b)
  {
    hide SignersOk, TotalWeight, PostLedger, SeedFor, ThresholdMet, Gates, SameStakes;
    var post := PostLedger(cr, c.ledger, b);
    SameStakesSameWeights(c.ledger, post, LiveAddrs(c.live, Height(c)));
    GatesCompared(c, post, b.signers);
    if b.signers == [] {
      NobodySigned(c.ledger, LiveWeight(post, c.live, Height(c)), TotalWeight(c.ledger) % W64);
    }
  }

  lemma NobodySigned(l: Ledger, live: nat, total: nat)
    ensures !Gates(WeightOf(l, SignerAddrs([])), live, total)
  {
    assert SignerAddrs([]) == [];
  }

  /** Transfers, name registrations and failed bodies change no stake. */
  predicate NoStakeChange(tx: Tx) {
    tx.kind == TRANSFER || tx.kind == REGISTER_NAME
  }

  lemma ApplyKeepsStakes(cr: Crypto, l: Ledger, tx: Tx, slot: U64, baseFee: U64)
    requires var r := ApplyTx(cr, l, tx, slot, baseFee).1; r.Rejected? || r.fault.Some? || NoStakeChange(tx)
    ensures SameStakes(l, ApplyTx(cr, l, tx, slot, baseFee).0)
  {
    hide Body, Precheck, Paid, BaseFeeDue, TipDue, GasCharged, Set;
    if Precheck(l, tx, slot, baseFee).None? {
      var e := Body(cr, l, tx, slot, baseFee);
      var s := e.sender.(balance := e.sender.balance - Paid(e, tx, baseFee));
      assert SameStakes(l, e.ledger) && e.sender.stake == Get(l, tx.sender).stake by {
        BodyKeepsStakes(cr, l, tx, slot, baseFee);
      }
      SetKeepsStakes(e.ledger, tx.sender, s);
    }
  }

  lemma BodyKeepsStakes(cr: Crypto, l: Ledger, tx: Tx, slot: U64, baseFee: U64)
    requires Precheck(l, tx, slot, baseFee).None?
    requires Body(cr, l, tx, slot, baseFee).fault.Some? || NoStakeChange(tx)
    ensures var e := Body(cr, l, tx, slot, baseFee);
      SameStakes(l, e.ledger) && e.sender.stake == Get(l, tx.sender).stake
  {
    hide ParseTransfer, ParseSlash, ParseName, ParseStake, PerGas, DoubleVote, SameStakes, Set;
    BodyShape(cr, l, tx, slot, baseFee);
    var e := Body(cr, l, tx, slot, baseFee);
    if e.fault.None? && tx.kind == TRANSFER {
      var b := ParseTransfer(tx.body).value;
      var h := Get(l, b.recipient);
      SetKeepsStakes(l, b.recipient, h.(balance := (h.balance + b.amount) % W64));
    } else {
      SameStakesReflexive(l, e.ledger);
    }
  }

  lemma SameStakesReflexive(l: Ledger, m: Ledger)
    requires l.accounts == m.accounts
    ensures SameStakes(l, m)
  {
  }

  lemma SetKeepsStakes(l: Ledger, a: Addr, h: Holdings)
    requires h.stake == Get(l, a).stake
    ensures SameStakes(l, Set(l, a, h))
  {
    forall x: Bytes ensures Get(l, x).stake == Get(Set(l, a, h), x).stake {
      SetGet(l, a, h, x);
    }
  }

  lemma SameStakesTransitive(l: Ledger, m: Ledger, n: Ledger)
    requires SameStakes(l, m) && SameStakes(m, n)
    ensures SameStakes(l, n)
  {
    forall x: Bytes ensures Get(l, x).stake == Get(n, x).stake {
      assert Get(l, x).stake == Get(m, x).stake;
    }
  }

  lemma {:induction false} ExecKeepsStakes(cr: Crypto, l: Ledger, txs: seq<Tx>, slot: U64, baseFee: U64)
    requires forall i :: 0 <= i < |txs| ==> NoStakeChange(txs[i])
    ensures var x := ExecTxs(cr, l, txs, slot, baseFee); x.Some? ==> SameStakes(l, x.value.ledger)
  {
    hide ApplyTx, SameStakes;
    if txs == [] {
      SameStakesReflexive(l, l);
    } else {
      ExecKeepsStakes(cr, l, txs[..|txs| - 1], slot, baseFee);
      match ExecTxs(cr, l, txs[..|txs| - 1], slot, baseFee)
      case None =>
      case Some(x) =>
        ApplyKeepsStakes(cr, x.ledger, txs[|txs| - 1], slot, baseFee);
        SameStakesTransitive(l, x.ledger, ApplyTx(cr, x.ledger, txs[|txs| - 1], slot, baseFee).0);
    }
  }

  /** A block of transfers and registrations changes no stake. */
  lemma PlainBlocksKeepStakes(cr: Crypto, l: Ledger, b: Block)
    requires forall i :: 0 <= i < |b.txs| ==> NoStakeChange(b.txs[i])
    ensures SameStakes(l, PostLedger(cr, l, b))
  {
    hide ExecTxs, SameStakes, BlockReward, Set;
    ExecKeepsStakes(cr, l, b.txs, b.header.slot, b.header.baseFee);
    match ExecTxs(cr, l, b.txs, b.header.slot, b.header.baseFee)
    case None => SameStakesReflexive(l, l);
    case Some(x) =>
      PayKeepsStakes(x.ledger, b.header.proposer, b.header.height, x.tips);
      SameStakesTransitive(l, x.ledger, PayLeader(x.ledger, b.header.proposer, b.header.height, x.tips));
  }

  lemma PayKeepsStakes(l: Ledger, proposer: Addr, height: nat, tips: U64)
    ensures SameStakes(l, PayLeader(l, proposer, height, tips))
  {
    hide BlockReward, Set, SameStakes;
    var reward := BlockReward(height);
    var paid := Credit(l, proposer, (reward + tips) % W64);
    SetKeepsStakes(l, proposer, Get(l, proposer).(balance := (Get(l, proposer).balance + (reward + tips) % W64) % W64));
    var h := Get(paid, REWARD_POOL);
    SetKeepsStakes(paid, REWARD_POOL, h.(balance := if reward > h.balance then 0 else h.balance - reward));
    SameStakesTransitive(l, paid, PayLeader(l, proposer, height, tips));
  }

  // ---------------------------------------------------------------------------
  // A block that changes stakes
  // ---------------------------------------------------------------------------

  /** Only the stake of `v` differs. */
  ghost predicate OnlyStakeOf(v: Addr, l: Ledger, m: Ledger) {
    forall a: Bytes :: a != v ==> Get(l, a).stake == Get(m, a).stake
  }

  lemma {:induction false} OneChanges(l: Ledger, m: Ledger, v: Addr, s: seq<Bytes>)
    requires Distinct(s) && OnlyStakeOf(v, l, m)
    ensures WeightOf(m, s) + (if v in s then Weight(Get(l, v)) else 0)
         == WeightOf(l, s) + (if v in s then Weight(Get(m, v)) else 0)
  {
    hide WeightOf, Get, Isqrt.Sqrt;
    if s == [] {
      WeightOfNone(l);
      WeightOfNone(m);
    } else {
      assert forall i :: 1 <= i < |s| ==> s[i] != s[0];
      OneChanges(l, m, v, s[1..]);
      WeightOfHead(l, s);
      WeightOfHead(m, s);
    }
  }

  /**
   `validate_commit` takes the live weight after the block: when the block changes the stake of one live
   validator, its two-thirds gate is measured against a live weight shifted by exactly that change.
   */
  lemma StakeChangeShiftsTheGate(l: Ledger, post: Ledger, live: seq<LiveEntry>, height: nat, v: Addr)
    requires DistinctLive(live) && v in LiveAddrs(live, height) && OnlyStakeOf(v, l, post)
    requires Weight(Get(l, v)) > 0 && Weight(Get(post, v)) > 0
    ensures LiveWeight(post, live, height) + Weight(Get(l, v)) == LiveWeight(l, live, height) + Weight(Get(post, v))
  {
    hide Weight, TotalWeight, OnlyStakeOf, Get, WeightOf;
    var s := LiveAddrs(live, height);
    LiveAddrsDistinct(live, height);
    OneChanges(l, post, v, s);
    OneWeighs(l, v, s);
    OneWeighs(post, v, s);
  }

  lemma {:induction false} OneWeighs(l: Ledger, v: Bytes, s: seq<Bytes>)
    requires v in s && Weight(Get(l, v)) > 0
    ensures WeightOf(l, s) > 0
  {
    hide Weight, WeightOf;
    WeightOfHead(l, s);
    if s[0] != v {
      OneWeighs(l, v, s[1..]);
    }
  }

  /** Three equal validators, all live, and nobody else with stake. */
  ghost predicate ThreeEqual(c: Chain, v: Addr, w: Addr, x: Addr)
    requires c.blocks != []
  {
    && LiveAddrs(c.live, Height(c)) == [v, w, x] && Distinct([v, w, x]) && DistinctLive(c.live)
    && Get(c.ledger, v).stake == Get(c.ledger, w).stake == Get(c.ledger, x).stake == MIN_STAKE
    && TotalWeight(c.ledger) == 30000
  }

  lemma ExampleRoots()
    ensures Sqrt(MIN_STAKE) == 10000 && Sqrt(4 * MIN_STAKE) == 20000
  {
    SqrtUnique(MIN_STAKE, 10000);
    SqrtUnique(4 * MIN_STAKE, 20000);
  }

  /** The block holds one transaction, a bond of `amount` by `v` that succeeds. */
  ghost predicate Bonds(cr: Crypto, l: Ledger, b: Block, v: Addr, amount: U64) {
    && |b.txs| == 1 && b.txs[0].kind == STAKE_BOND && b.txs[0].sender == v && ParseStake(b.txs[0].body) == Some(amount)
    && ExecTxs(cr, l, b.txs, b.header.slot, b.header.baseFee).Some?
    && Succeeds(cr, l, b.txs[0], b.header.slot, b.header.baseFee)
  }

  /** Such a block raises the stake of `v` and leaves every other stake alone. */
  lemma BondBlockStakes(cr: Crypto, l: Ledger, b: Block, v: Addr, amount: U64)
    requires Bonds(cr, l, b, v, amount)
    ensures var post := PostLedger(cr, l, b);
      OnlyStakeOf(v, l, post) && Get(post, v).stake == (Get(l, v).stake + amount) % W64
  {
    hide ApplyTx, TxVerify, ParseStake, Succeeds, PayLeader;
    var tx, slot, fee := b.txs[0], b.header.slot, b.header.baseFee;
    assert b.txs[..|b.txs| - 1] == [];
    assert ExecTxs(cr, l, [], slot, fee) == Some(Exec(l, 0, 0));
    var x := ExecTxs(cr, l, b.txs, slot, fee).value;
    var after := ApplyTx(cr, l, tx, slot, fee).0;
    assert x.ledger == after;
    var post := PayLeader(after, b.header.proposer, b.header.height, x.tips);
    PayKeepsStakes(after, b.header.proposer, b.header.height, x.tips);
    forall a: Bytes ensures a != v ==> Get(l, a).stake == Get(post, a).stake {
      StakeMoves(cr, l, tx, slot, fee, a);
      assert Get(after, a).stake == Get(post, a).stake;
    }
    StakeMoves(cr, l, tx, slot, fee, v);
    assert Get(after, v).stake == Get(post, v).stake;
  }

  /**
   Two of three equal validators can seal any block that leaves the stakes alone, but not a block in
   which one of the three bonds three times its stake: `try_commit_inner` passes, and no node ever
   accepts the block with this certificate.
   */
  lemma BondRaisesItsOwnBar(cr: Crypto, c: Chain, b: Block, v: Addr, w: Addr, x: Addr, now: U64)
    requires c.blocks != [] && ThreeEqual(c, v, w, x) && Bonds(cr, c.ledger, b, v, 3 * MIN_STAKE)
    requires |b.signers| == 2 && b.signers[0].signer == v && b.signers[1].signer == w
    ensures ThresholdMet(c, b.signers)
    ensures !CommitOk(cr, SeedFor(cr, c, b.header.slot), c.ledger, PostLedger(cr, c.ledger, b), c.live, Height(c), b)
    ensures BlockVerdict(cr, c, b, now) != Ok
  {
    hide TotalWeight, LiveAddrs, Isqrt.Sqrt, WeightOf, Bonds, PostLedger, SignersOk, SeedFor, HeaderVerdict, ExecTxs,
      TxRoot,
      StateRoot, Get;
    ExampleRoots();
    assert SignerAddrs(b.signers) == [v, w];
    WeightsOf(c.ledger, v, w, x);
    var post := PostLedger(cr, c.ledger, b);
    BondBlockStakes(cr, c.ledger, b, v, 3 * MIN_STAKE);
    StakeChangeShiftsTheGate(c.ledger, post, c.live, Height(c), v);
  }

  lemma WeightsOf(l: Ledger, v: Addr, w: Addr, x: Addr)
    ensures WeightOf(l, [v, w]) == Weight(Get(l, v)) + Weight(Get(l, w))
    ensures WeightOf(l, [v, w, x]) == Weight(Get(l, v)) + Weight(Get(l, w)) + Weight(Get(l, x))
  {
    hide Weight, WeightOf;
    WeightOfNone(l);
    WeightOfHead(l, [x]);
    WeightOfHead(l, [w, x]);
    WeightOfHead(l, [v, w, x]);
    WeightOfHead(l, [w]);
    WeightOfHead(l, [v, w]);
    assert [v, w, x][1..] == [w, x] && [w, x][1..] == [x] && [v, w][1..] == [w] && [w][1..] == [] && [x][1..] == [];
  }

  // ---------------------------------------------------------------------------
  // Safety of the network
  // ---------------------------------------------------------------------------

  /** Every entry under the node's key in a certificate stored by the chain is a vote the node cast. */
  ghost predicate OwnVotes(cr: Crypto, n: Node, c: Chain) {
    forall h, i {:trigger c.blocks[h].signers[i]} :: 1 <= h < |c.blocks| && 0 <= i < |c.blocks[h].signers| ==>
      c.blocks[h].signers[i].signer == n.kp.pk ==>
        HasCast(n, c.blocks[h].header.height, BlockHash(cr, c.blocks[h].header))
  }

  predicate HasCast(n: Node, height: U64, hash: Hash) {
    exists i :: 0 <= i < |n.votes| && n.votes[i].height == height && n.votes[i].block == hash
  }

  /** The node gave up a block it had voted for and voted, at that height, for one of lower priority. */
  predicate MovedAt(n: Node, height: U64) {
    exists i, j :: 0 <= i < j < |n.votes| && n.votes[i].height == height && n.votes[j].height == height
      && n.votes[i].block != n.votes[j].block && Less(n.votes[j].priority, n.votes[i].priority)
  }

  lemma TwoVotesMeanAMove(n: Node, height: U64, a: Hash, b: Hash)
    requires Descends(n.votes) && HasCast(n, height, a) && HasCast(n, height, b) && a != b
    ensures MovedAt(n, height)
  {
    var i :| 0 <= i < |n.votes| && n.votes[i].height == height && n.votes[i].block == a;
    var j :| 0 <= j < |n.votes| && n.votes[j].height == height && n.votes[j].block == b;
    if i < j {
      assert Follows(n.votes[i], n.votes[j]);
    } else {
      assert Follows(n.votes[j], n.votes[i]);
    }
  }

  /** Fewer than 2^32 accounts below every block. */
  ghost predicate FewAccounts(cr: Crypto, g: Genesis, c: Chain) {
    forall h :: 1 <= h < |c.blocks| ==> |LedgerBelow(cr, g, c, h).accounts| < W32
  }

  ghost predicate NoCollisions(cr: Crypto, c: Chain, d: Chain) {
    forall k :: 0 <= k < |c.blocks| && k < |d.blocks| ==> NoCollisionAt(cr, c, d, k)
  }

  lemma SoundIsPresentable(cr: Crypto, g: Genesis, c: Chain)
    requires CleanChain(c) && FewAccounts(cr, g, c)
    ensures Presentable(cr, g, c)
  {
    hide LedgerBelow, DistinctSigners;
    forall h | 1 <= h < |c.blocks| ensures PresentableAt(cr, g, c, h) {
      assert CleanBlock(c.blocks[h]);
    }
  }

  /** Every peer caught by `e` whose certificate entries are its own votes moved its vote at that height. */
  ghost predicate MovedIfHonest(cr: Crypto, g: Genesis, peers: seq<Peer>, c: Chain, d: Chain, e: SlashBody)
    requires forall i :: 0 <= i < |peers| ==> AllClean(peers[i].events)
  {
    forall i :: 0 <= i < |peers| && peers[i].kp.pk == e.validator && Honest(cr, g, peers[i], c, d) ==>
      MovedAt(StateOf(cr, g, peers[i]), e.height)
  }

  ghost predicate Honest(cr: Crypto, g: Genesis, p: Peer, c: Chain, d: Chain)
    requires AllClean(p.events)
  {
    OwnVotes(cr, StateOf(cr, g, p), c) && OwnVotes(cr, StateOf(cr, g, p), d)
  }

  lemma HonestEvidenceIsAMove(cr: Crypto, g: Genesis, p: Peer, c: Chain, d: Chain, h: nat, e: SlashBody)
    requires AllClean(p.events) && Honest(cr, g, p, c, d) && p.kp.pk == e.validator
    requires ForkAt(c, d, h) && FromCertificates(cr, c.blocks[h], d.blocks[h], e)
    requires e.hashA != e.hashB && c.blocks[h].header.height == d.blocks[h].header.height
    ensures MovedAt(StateOf(cr, g, p), e.height)
  {
    hide Steps, Descends, HasCast, MovedAt, LockFollows, AllSigned, GenesisChain, BlockHash, SameContent, Agree;
    var n, a, b := StateOf(cr, g, p), c.blocks[h], d.blocks[h];
    GenesisHasOneBlock(cr, g);
    VotesDescend(cr, p.kp, p.validator, GenesisChain(cr, g), p.events);
    var i, j :| 0 <= i < |a.signers| && 0 <= j < |b.signers| && Certifies(cr, a, i, b, j, e);
    assert a.signers[i].signer == n.kp.pk && b.signers[j].signer == n.kp.pk;
    assert HasCast(n, a.header.height, e.hashA) && HasCast(n, b.header.height, e.hashB);
    TwoVotesMeanAMove(n, e.height, e.hashA, e.hashB);
  }

  /**
   Safety of any network. Whatever each peer received, and in whatever order its phases ran: either
   the chains of peers `a` and `b` do not fork, or the two certificates of the first forked height hold
   evidence that convicts a validator with stake there; and if that validator is a peer whose entries in
   certificates are votes it cast, then it moved its vote to a block of strictly lower priority.
   */
  lemma ForkNeedsAMovedVote(cr: Crypto, g: Genesis, peers: seq<Peer>, a: nat, b: nat) returns (h: nat, e: SlashBody)
    requires a < |peers| && b < |peers| && forall i :: 0 <= i < |peers| ==> AllClean(peers[i].events)
    requires var c, d := StateOf(cr, g, peers[a]).chain, StateOf(cr, g, peers[b]).chain;
      FewAccounts(cr, g, c) && FewAccounts(cr, g, d) && NoCollisions(cr, c, d)
    ensures var c, d := StateOf(cr, g, peers[a]).chain, StateOf(cr, g, peers[b]).chain;
      NoFork(c, d) || Accounted(cr, g, peers, c, d, h, e)
  {
    hide StateOf, Run, NoFork, Convicts, FewAccounts, CleanChain, Presentable, NoCollisionAt, MovedAt, Honest, AllClean,
      FromCertificates;
    var c, d := StateOf(cr, g, peers[a]).chain, StateOf(cr, g, peers[b]).chain;
    RunsStaySound(cr, g, peers[a]);
    RunsStaySound(cr, g, peers[b]);
    var xs :| c == Run(cr, g, xs);
    var ys :| d == Run(cr, g, ys);
    SoundIsPresentable(cr, g, c);
    SoundIsPresentable(cr, g, d);
    h, e := ForkIsSlashable(cr, g, xs, ys);
    if !NoFork(c, d) {
      HeightsAgree(cr, g, xs, ys, h);
      ConvictionIsADoubleVote(cr, g, c, h, e);
      DoubleVoteDiffers(cr, e);
      forall i | 0 <= i < |peers| && peers[i].kp.pk == e.validator && Honest(cr, g, peers[i], c, d)
        ensures MovedAt(StateOf(cr, g, peers[i]), e.height)
      {
        HonestEvidenceIsAMove(cr, g, peers[i], c, d, h, e);
      }
    }
  }

  /** What a fork proves: who signed both blocks of the first forked height, and why. */
  ghost predicate Accounted(cr: Crypto, g: Genesis, peers: seq<Peer>, c: Chain, d: Chain, h: nat, e: SlashBody)
    requires forall i :: 0 <= i < |peers| ==> AllClean(peers[i].events)
  {
    && ForkAt(c, d, h) && FromCertificates(cr, c.blocks[h], d.blocks[h], e)
    && Convicts(cr, g, c, h, e) && MovedIfHonest(cr, g, peers, c, d, e)
  }

  lemma HeightsAgree(cr: Crypto, g: Genesis, xs: seq<Offer>, ys: seq<Offer>, h: nat)
    requires ForkAt(Run(cr, g, xs), Run(cr, g, ys), h)
    ensures Run(cr, g, xs).blocks[h].header.height == h && Run(cr, g, ys).blocks[h].header.height == h
  {
    hide Run, Grown, SameContent, Agree, ExecTxs, TxRoot, CommitOk;
    RunIsReplay(cr, g, xs);
    RunIsReplay(cr, g, ys);
    AcceptedFacts(cr, g, Run(cr, g, xs), h);
    AcceptedFacts(cr, g, Run(cr, g, ys), h);
  }

  lemma ConvictionIsADoubleVote(cr: Crypto, g: Genesis, c: Chain, h: nat, e: SlashBody)
    requires 1 <= h <= |c.blocks| && Convicts(cr, g, c, h, e)
    ensures DoubleVote(cr, e) && e.height == h && Get(LedgerBelow(cr, g, c, h), e.validator).stake >= MIN_STAKE
  {
    hide LedgerBelow, Slashes, DoubleVote;
  }

  predicate ListedIn(v: Addr, b: Block) {
    Lists(b.signers, v)
  }

  /** Everybody listed in both certificates of height `h` is an honest peer whose vote did not move there. */
  ghost predicate Steadfast(cr: Crypto, g: Genesis, peers: seq<Peer>, c: Chain, d: Chain, h: nat)
    requires h < |c.blocks| && h < |d.blocks| && forall i :: 0 <= i < |peers| ==> AllClean(peers[i].events)
  {
    forall v: Addr | ListedIn(v, c.blocks[h]) && ListedIn(v, d.blocks[h]) ::
      exists i :: 0 <= i < |peers| && peers[i].kp.pk == v && Honest(cr, g, peers[i], c, d)
        && !MovedAt(StateOf(cr, g, peers[i]), c.blocks[h].header.height)
  }

  /**
   Plain safety: two chains fork at no height at which everybody who signed both blocks is an honest
   peer that did not move its vote.
   */
  lemma NoMovesNoFork(cr: Crypto, g: Genesis, peers: seq<Peer>, a: nat, b: nat)
    requires a < |peers| && b < |peers| && forall i :: 0 <= i < |peers| ==> AllClean(peers[i].events)
    requires var c, d := StateOf(cr, g, peers[a]).chain, StateOf(cr, g, peers[b]).chain;
      && FewAccounts(cr, g, c) && FewAccounts(cr, g, d) && NoCollisions(cr, c, d)
      && forall h :: ForkAt(c, d, h) ==> Steadfast(cr, g, peers, c, d, h)
    ensures NoFork(StateOf(cr, g, peers[a]).chain, StateOf(cr, g, peers[b]).chain)
  {
    hide StateOf, NoFork, ForkAt, FewAccounts, NoCollisions, Steadfast, AllClean, Accounted;
    var c, d := StateOf(cr, g, peers[a]).chain, StateOf(cr, g, peers[b]).chain;
    var h, e := ForkNeedsAMovedVote(cr, g, peers, a, b);
    if Accounted(cr, g, peers, c, d, h, e) {
      AccountedIsAFork(cr, g, peers, c, d, h, e);
      MoverIsNotSteadfast(cr, g, peers, c, d, h, e);
    }
  }

  lemma AccountedIsAFork(cr: Crypto, g: Genesis, peers: seq<Peer>, c: Chain, d: Chain, h: nat, e: SlashBody)
    requires forall i :: 0 <= i < |peers| ==> AllClean(peers[i].events)
    requires Accounted(cr, g, peers, c, d, h, e)
    ensures ForkAt(c, d, h) && h < |c.blocks| && h < |d.blocks|
  {
    hide FromCertificates, Convicts, MovedIfHonest, Agree, SameContent;
  }

  lemma MoverIsNotSteadfast(cr: Crypto, g: Genesis, peers: seq<Peer>, c: Chain, d: Chain, h: nat, e: SlashBody)
    requires forall i :: 0 <= i < |peers| ==> AllClean(peers[i].events)
    requires h < |c.blocks| && h < |d.blocks| && Accounted(cr, g, peers, c, d, h, e)
    ensures !Steadfast(cr, g, peers, c, d, h)
  {
    hide StateOf, MovedAt, Honest, AllClean, Convicts, ForkAt, BlockHash;
    var a, b := c.blocks[h], d.blocks[h];
    var i, j :| 0 <= i < |a.signers| && 0 <= j < |b.signers| && Certifies(cr, a, i, b, j, e);
    assert ListedIn(e.validator, a) && ListedIn(e.validator, b);
  }

  /**
   Moving a vote as the protocol asks is itself punishable: the two signatures of an honest node that
   moved at a height are evidence that `apply_tx` accepts against it from anybody else.
   */
  lemma HonestMoveIsSlashable(cr: Crypto, g: Genesis, p: Peer, height: U64) returns (e: SlashBody)
    requires AllClean(p.events) && SignsCorrectly(cr, p.kp) && MovedAt(StateOf(cr, g, p), height)
    ensures DoubleVote(cr, e) && Slashes(cr, e) && e.validator == p.kp.pk
    ensures BroadcastBy(StateOf(cr, g, p), height, e)
  {
    hide Steps, Descends, VoteMessage, LockFollows, GenesisChain, Slashes;
    var n := StateOf(cr, g, p);
    GenesisHasOneBlock(cr, g);
    VotesDescend(cr, p.kp, p.validator, GenesisChain(cr, g), p.events);
    var i, j :| 0 <= i < j < |n.votes| && n.votes[i].height == height && n.votes[j].height == height
      && n.votes[i].block != n.votes[j].block && Less(n.votes[j].priority, n.votes[i].priority);
    var u, v := n.votes[i], n.votes[j];
    assert SignedBy(cr, n.kp, u) && SignedBy(cr, n.kp, v);
    e := Evidence(height, u.block, u.entry, v.block, v.entry);
    DoubleVoteSlashes(cr, e);
  }

  /** The two halves of `e` are votes the node broadcast at `height`, in this order. */
  predicate BroadcastBy(n: Node, height: U64, e: SlashBody) {
    exists i, j :: 0 <= i < j < |n.votes| && n.votes[i].height == height && n.votes[j].height == height
      && e == Evidence(height, n.votes[i].block, n.votes[i].entry, n.votes[j].block, n.votes[j].entry)
  }

  /**
   The lock does not keep a validator from signing twice at one height: a node that has voted, still
   sits at the same tip and sees a proposal of lower priority signs that one too.
   */
  lemma SecondVote(cr: Crypto, n: Node, slot: U64, now: U64, j: nat)
    requires Sized(n) && n.validator && Open(n.slotVotes, slot)
    requires n.voteHeight == Height(n.chain) + 1 < W64 && HasCast(n, n.voteHeight, n.voteBlock)
    requires j < RING && Better(n, j)
    requires forall i :: 0 <= i < RING && Better(n, i) ==>
      CommitteeProof(cr, n, n.pending[i].block.header.slot).Some? && n.pending[i].hash != n.voteBlock
    ensures var r := VotePhase(cr, n, slot, now);
      r.voteBlock != n.voteBlock && HasCast(r, n.voteHeight, n.voteBlock) && HasCast(r, n.voteHeight, r.voteBlock)
  {
    hide TryCommit, Backed, Open, Lowest, NoteVote, AddSigner, OurEntry, CommitteeProof, HasCast, Touch, SeedFor;
    var h, best := n.voteHeight, Lowest(n.pending, n.voteHeight);
    LowestIsLowest(n.pending, h, j);
    var p := n.pending[best];
    if !Less(p.priority, n.votePriority) {
      AtMostTransitive(n.votePriority, p.priority, n.pending[j].priority);
    }
    var m := n.(slotVotes := Touch(n.slotVotes, slot).0);
    SameCommittee(cr, n, m, p.block.header.slot);
    var v := CastVote(cr, m, best, p.priority).(voteHeight := h, voteBlock := p.hash, votePriority := p.priority);
    CommitIsQuiet(cr, v, best, false, now);
    var r := VotePhase(cr, n, slot, now);
    assert r.votes == v.votes;
    HasCastAppend(n, r, v.votes[|n.votes|]);
  }

  /** Entry `i` is undecided at the locked height and of lower priority than the lock. */
  predicate Better(n: Node, i: nat)
    requires Sized(n) && i < RING
  {
    Candidate(n.pending[i], n.voteHeight) && Less(n.pending[i].priority, n.votePriority)
  }

  lemma SameCommittee(cr: Crypto, n: Node, m: Node, slot: U64)
    requires Sized(n) && Sized(m) && n.chain == m.chain && n.kp == m.kp
    ensures CommitteeProof(cr, n, slot) == CommitteeProof(cr, m, slot)
  {
  }

  lemma HasCastAppend(n: Node, r: Node, v: Ballot)
    requires r.votes == n.votes + [v]
    ensures HasCast(r, v.height, v.block)
    ensures forall height, hash :: HasCast(n, height, hash) ==> HasCast(r, height, hash)
  {
    assert r.votes[|n.votes|] == v;
    forall height, hash | HasCast(n, height, hash) ensures HasCast(r, height, hash) {
      var i :| 0 <= i < |n.votes| && n.votes[i].height == height && n.votes[i].block == hash;
      assert r.votes[i] == n.votes[i];
    }
  }
}
