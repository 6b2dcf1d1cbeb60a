/** The vote lock over every run of a node (src/consensus.c:333-370, 738-793). */
module VoteLocks {
  import opened Words
  import opened Types
  import opened Codec
  import opened Chains
  import opened Voting
  import Agreement
  import Pool

  // ---------------------------------------------------------------------------
  // What each step leaves alone
  // ---------------------------------------------------------------------------

  /** No vote was cast and the lock did not move; the chain may have grown by accepted blocks. */
  ghost predicate Quiet(n: Node, r: Node)
    requires Sized(n) && Sized(r)
  {
    && r.kp == n.kp && r.validator == n.validator && r.votes == n.votes
    && r.voteHeight == n.voteHeight && r.voteBlock == n.voteBlock && r.votePriority == n.votePriority
    && Height(n.chain) <= Height(r.chain)
  }

  lemma CommitIsQuiet(cr: Crypto, n: Node, i: nat, force: bool, now: U64)
    requires Sized(n) && i < RING
    ensures Quiet(n, TryCommit(cr, n, i, force, now))
  {
    hide BlockVerdict, ThresholdMet, InGrace, Extend;
  }

  lemma BlockIsQuiet(cr: Crypto, n: Node, b: Block, now: U64)
    requires Sized(n)
    ensures Quiet(n, HandleBlock(cr, n, b, now))
  {
    hide TryCommit, Welcome, Merge, Stash, Find, RequestGap;
    var i := Find(n.pending, BlockHash(cr, b.header));
    if i < RING {
      var p := n.pending[i];
      CommitIsQuiet(cr, n.(pending := n.pending[i := p.(signers := Merge(p.signers, b.signers))]), i, false, now);
    } else if b.header.height > Height(n.chain) + 1 {
      RequestIsQuiet(n, b.header.height, now);
    } else {
      var (m, j) := Stash(cr, n, b, now);
      StashIsQuiet(cr, n, b, now);
      CommitIsQuiet(cr, m, j, false, now);
    }
  }

  lemma RequestIsQuiet(n: Node, target: U64, now: U64)
    requires Sized(n) && target > Height(n.chain) + 1
    ensures Quiet(n, RequestGap(n, target, now))
    ensures RequestGap(n, target, now).chain == n.chain && RequestGap(n, target, now).pending == n.pending
  {
  }

  lemma StashIsQuiet(cr: Crypto, n: Node, b: Block, now: U64)
    requires Sized(n)
    ensures Quiet(n, Stash(cr, n, b, now).0) && Stash(cr, n, b, now).0.chain == n.chain
  {
    hide NoteProposal, Alloc, PriorityOf;
  }

  lemma VoteInIsQuiet(cr: Crypto, n: Node, height: U64, hash: Hash, s: Signer, now: U64)
    requires Sized(n)
    ensures Quiet(n, HandleVote(cr, n, height, hash, s, now))
  {
    hide TryCommit, VoteOk, AddSigner, Lists, Find;
    var i := Find(n.pending, hash);
    if i < RING {
      var p := n.pending[i];
      CommitIsQuiet(cr, n.(pending := n.pending[i := p.(signers := AddSigner(p.signers, s))]), i, false, now);
    }
  }

  lemma {:induction false} SealIsQuiet(cr: Crypto, n: Node, slot: U64, k: nat, now: U64)
    requires Sized(n) && k <= RING
    ensures Quiet(n, SealUpTo(cr, n, slot, k, now))
  {
    hide TryCommit;
    if k > 0 {
      SealIsQuiet(cr, n, slot, k - 1, now);
      CommitIsQuiet(cr, SealUpTo(cr, n, slot, k - 1, now), k - 1, true, now);
    }
  }

  lemma ProposeIsQuiet(cr: Crypto, n: Node, slot: U64, now: U64)
    requires Sized(n)
    ensures Quiet(n, Propose(cr, n, slot, now))
  {
    hide TryCommit, Agreement.BuildBlock, Stash, Leads, Voting.Candidates;
    var pruned := n.(pool := Pool.Unexpired(n.pool, slot));
    match Agreement.BuildBlock(cr, n.chain, slot, n.kp, Voting.Candidates(n.pool))
    case None =>
    case Some(b) =>
      var (m, i) := Stash(cr, pruned, b, now);
      StashIsQuiet(cr, pruned, b, now);
      CommitIsQuiet(cr, m.(blocks := n.blocks + [b]), i, false, now);
  }

  // ---------------------------------------------------------------------------
  // The vote phase
  // ---------------------------------------------------------------------------

  /** The lock of `r` is the lock of `n`, or a later height, or the same height at a lower priority. */
  predicate LockMoved(n: Node, r: Node) {
    || (r.voteHeight == n.voteHeight && r.voteBlock == n.voteBlock && r.votePriority == n.votePriority)
    || r.voteHeight > n.voteHeight
    || (r.voteHeight == n.voteHeight && Less(r.votePriority, n.votePriority))
  }

  /** A vote signed by the node itself. */
  predicate SignedBy(cr: Crypto, kp: KeyPair, v: Ballot) {
    v.entry.signer == kp.pk && v.entry.sig == cr.sign(kp.sk, VoteMessage(v.height, v.block))
  }

  /** At most one vote was cast, and it is for the block the node is now locked on. */
  ghost predicate VotedForLock(cr: Crypto, n: Node, r: Node)
    requires Sized(n) && Sized(r)
  {
    || r.votes == n.votes
    || (|r.votes| == |n.votes| + 1 && r.votes[..|n.votes|] == n.votes
        && var v := r.votes[|n.votes|];
           v.height == r.voteHeight && v.block == r.voteBlock && v.priority == r.votePriority
           && r.voteHeight == Height(n.chain) + 1 && SignedBy(cr, n.kp, v))
  }

  lemma CastIs(cr: Crypto, n: Node, i: nat, lock: Bytes)
    requires Sized(n) && i < RING && n.pending[i].Held?
    ensures var r := CastVote(cr, n, i, lock); var p := n.pending[i];
      && r.chain == n.chain && r.kp == n.kp && r.validator == n.validator
      && r.voteHeight == n.voteHeight && r.voteBlock == n.voteBlock && r.votePriority == n.votePriority
      && (r.votes == n.votes ||
          exists s :: r.votes == n.votes + [Ballot(p.block.header.height, p.hash, s, lock)]
                      && SignedBy(cr, n.kp, Ballot(p.block.header.height, p.hash, s, lock)))
  {
    hide CommitteeProof, NoteVote, AddSigner, VoteMessage;
  }

  /** Before the lock may commit: the state in which the vote phase calls `try_commit`. */
  lemma PhaseMovesDown(cr: Crypto, n: Node, slot: U64, now: U64)
    requires Sized(n) && n.voteHeight <= Height(n.chain) + 1
    ensures var r := VotePhase(cr, n, slot, now);
      && r.kp == n.kp && r.validator == n.validator && Height(n.chain) <= Height(r.chain)
      && LockMoved(n, r) && VotedForLock(cr, n, r) && r.voteHeight <= Height(n.chain) + 1
  {
    hide TryCommit, CastVote, Lowest, Backed, Touch, Open, SignedBy;
    var h, best := Height(n.chain) + 1, Lowest(n.pending, Height(n.chain) + 1);
    if n.validator && Open(n.slotVotes, slot) && best < RING {
      var m := n.(slotVotes := Touch(n.slotVotes, slot).0);
      if Locked(n, n.pending[best].priority) {
        var i := Backed(n.pending, h, n.voteBlock);
        if i < RING {
          CastIs(cr, m, i, n.votePriority);
          CommitIsQuiet(cr, CastVote(cr, m, i, n.votePriority), i, false, now);
        }
      } else {
        var p := n.pending[best];
        CastIs(cr, m, best, p.priority);
        var v := CastVote(cr, m, best, p.priority).(voteHeight := h, voteBlock := p.hash, votePriority := p.priority);
        CommitIsQuiet(cr, v, best, false, now);
      }
    }
  }

  // ---------------------------------------------------------------------------
  // Every run
  // ---------------------------------------------------------------------------

  /** `v` was cast no earlier than `u`: never lower, and at one height only towards lower priorities. */
  predicate Follows(u: Ballot, v: Ballot) {
    && u.height <= v.height
    && (u.height == v.height ==>
          if u.block == v.block then !Less(u.priority, v.priority) else Less(v.priority, u.priority))
  }

  ghost predicate Descends(votes: seq<Ballot>) {
    forall i, j :: 0 <= i < j < |votes| ==> Follows(votes[i], votes[j])
  }

  ghost predicate AllSigned(cr: Crypto, n: Node) {
    forall i :: 0 <= i < |n.votes| ==> SignedBy(cr, n.kp, n.votes[i])
  }

  /** The lock, as the vote it stands for. */
  ghost predicate LockFollows(n: Node)
    requires Sized(n)
  {
    && n.voteHeight <= Height(n.chain) + 1
    && forall i :: 0 <= i < |n.votes| ==> UnderLock(n, n.votes[i])
  }

  predicate UnderLock(n: Node, u: Ballot) {
    && u.height <= n.voteHeight
    && (u.height == n.voteHeight ==>
          if u.block == n.voteBlock then !Less(u.priority, n.votePriority) else Less(n.votePriority, u.priority))
  }

  lemma MovedLockCovers(n: Node, r: Node, u: Ballot)
    requires UnderLock(n, u) && LockMoved(n, r)
    ensures UnderLock(r, u)
  {
    if r.voteHeight == n.voteHeight == u.height && Less(r.votePriority, n.votePriority) {
      if Less(n.votePriority, u.priority) {
        LessAsymmetric(n.votePriority, u.priority);
      }
      LowerThanBoth(r.votePriority, n.votePriority, u.priority);
    }
  }

  lemma LowerThanBoth(a: Bytes, b: Bytes, c: Bytes)
    requires Less(a, b) && !Less(c, b)
    ensures Less(a, c) && !Less(c, a)
  {
    LessTotal(b, c);
    if Less(b, c) {
      LessTransitive(a, b, c);
    }
    LessAsymmetric(a, c);
  }

  lemma PhaseKeepsDescent(cr: Crypto, n: Node, r: Node)
    requires Sized(n) && Sized(r) && LockFollows(n) && Descends(n.votes) && AllSigned(cr, n) && r.kp == n.kp
    requires LockMoved(n, r) && VotedForLock(cr, n, r) && Height(n.chain) <= Height(r.chain)
    requires r.voteHeight <= Height(n.chain) + 1
    ensures LockFollows(r) && Descends(r.votes) && AllSigned(cr, r)
  {
    hide UnderLock, LockMoved, SignedBy;
    forall i | 0 <= i < |n.votes| ensures UnderLock(r, n.votes[i]) {
      MovedLockCovers(n, r, n.votes[i]);
    }
    if r.votes != n.votes {
      LessIrreflexive(r.votePriority);
      var v := r.votes[|n.votes|];
      assert r.votes == n.votes + [v];
      LastUnderLock(r, v);
      forall i | 0 <= i < |n.votes| ensures Follows(n.votes[i], v) {
        LockThenVote(r, n.votes[i], v);
      }
    }
  }

  lemma LastUnderLock(r: Node, v: Ballot)
    requires v.height == r.voteHeight && v.block == r.voteBlock && v.priority == r.votePriority
    ensures UnderLock(r, v)
  {
    LessIrreflexive(v.priority);
  }

  lemma LockThenVote(r: Node, u: Ballot, v: Ballot)
    requires UnderLock(r, u) && v.height == r.voteHeight && v.block == r.voteBlock && v.priority == r.votePriority
    ensures Follows(u, v)
  {
  }

  lemma StepKeepsDescent(cr: Crypto, n: Node, e: Event)
    requires Sized(n) && Bounded(e) && LockFollows(n) && Descends(n.votes) && AllSigned(cr, n)
    ensures var r := Step(cr, n, e);
      && LockFollows(r) && Descends(r.votes) && AllSigned(cr, r)
      && LockMoved(n, r) && r.kp == n.kp && Height(n.chain) <= Height(r.chain)
  {
    hide HandleBlock, HandleVote, VotePhase, SealUpTo, Propose, Follows, SignedBy;
    match e
    case BlockIn(b, now) => BlockIsQuiet(cr, n, b, now);
    case VoteIn(height, hash, s, now) => VoteInIsQuiet(cr, n, height, hash, s, now);
    case Vote(slot, now) =>
      PhaseMovesDown(cr, n, slot, now);
      PhaseKeepsDescent(cr, n, VotePhase(cr, n, slot, now));
    case Seal(slot, now) => SealIsQuiet(cr, n, slot, RING, now);
    case Lead(slot, now) => ProposeIsQuiet(cr, n, slot, now);
    case Submit(_, _) =>
  }

  /**
   Over every run without restart: cast votes never go back to a lower height, and at one height the
   block voted for changes only together with a strictly lower priority.
   */
  lemma {:induction false} VotesDescend(cr: Crypto, kp: KeyPair, validator: bool, c: Chain, es: seq<Event>)
    requires c.blocks != [] && AllBounded(es)
    ensures var n := Steps(cr, Start(kp, validator, c), es);
      Descends(n.votes) && LockFollows(n) && AllSigned(cr, n) && n.kp == kp
  {
    hide Step, Descends, LockFollows, LockMoved, AllSigned;
    if es == [] {
      NothingCast(cr, kp, validator, c);
    } else {
      VotesDescend(cr, kp, validator, c, es[..|es| - 1]);
      StepKeepsDescent(cr, Steps(cr, Start(kp, validator, c), es[..|es| - 1]), es[|es| - 1]);
    }
  }

  lemma NothingCast(cr: Crypto, kp: KeyPair, validator: bool, c: Chain)
    requires c.blocks != []
    ensures var n := Start(kp, validator, c); Descends(n.votes) && LockFollows(n) && AllSigned(cr, n) && n.kp == kp
  {
  }

  lemma LockMovedTransitive(a: Node, b: Node, c: Node)
    requires LockMoved(a, b) && LockMoved(b, c)
    ensures LockMoved(a, c)
  {
    if Less(c.votePriority, b.votePriority) && Less(b.votePriority, a.votePriority) {
      LessTransitive(c.votePriority, b.votePriority, a.votePriority);
    }
  }

  /** The lock itself moves the same way between any two moments of a run. */
  lemma {:induction false} LockOverRuns(cr: Crypto, kp: KeyPair, validator: bool, c: Chain, es: seq<Event>, k: nat)
    requires c.blocks != [] && AllBounded(es) && k <= |es|
    ensures LockMoved(Steps(cr, Start(kp, validator, c), es[..k]), Steps(cr, Start(kp, validator, c), es))
  {
    hide Step, LockMoved, Start;
    var s := Start(kp, validator, c);
    if k == |es| {
      assert es[..k] == es;
      LockMovedReflexive(Steps(cr, s, es));
    } else {
      var init := es[..|es| - 1];
      LockOverRuns(cr, kp, validator, c, init, k);
      assert init[..k] == es[..k];
      VotesDescend(cr, kp, validator, c, init);
      StepKeepsDescent(cr, Steps(cr, s, init), es[|es| - 1]);
      LockMovedTransitive(Steps(cr, s, es[..k]), Steps(cr, s, init), Steps(cr, s, es));
    }
  }

  lemma LockMovedReflexive(n: Node)
    ensures LockMoved(n, n)
  {
  }

  // ---------------------------------------------------------------------------
  // How often a vote can move
  // ---------------------------------------------------------------------------

  /** How often consecutive votes at height `h` name different blocks. */
  function Switches(votes: seq<Ballot>, h: nat): nat {
    if |votes| < 2 then 0
    else
      var u, v := votes[|votes| - 2], votes[|votes| - 1];
      Switches(votes[..|votes| - 1], h) + if u.height == v.height == h && u.block != v.block then 1 else 0
  }

  function PrioritiesAt(votes: seq<Ballot>, h: nat): set<Bytes> {
    set i | 0 <= i < |votes| && votes[i].height == h :: votes[i].priority
  }

  /** A vote moves fewer times than there are different priorities among the votes of that height. */
  lemma {:induction false} SwitchesAreBounded(votes: seq<Ballot>, h: nat)
    requires Descends(votes)
    ensures PrioritiesAt(votes, h) != {} ==> Switches(votes, h) < |PrioritiesAt(votes, h)|
    ensures PrioritiesAt(votes, h) == {} ==> Switches(votes, h) == 0
  {
    if votes != [] {
      var init, v := votes[..|votes| - 1], votes[|votes| - 1];
      SwitchesAreBounded(init, h);
      PrioritiesGrow(votes, h);
      GrowsBy(PrioritiesAt(init, h), v.priority);
      if |votes| >= 2 {
        var u := votes[|votes| - 2];
        assert u == init[|init| - 1];
        if u.height == v.height == h && u.block != v.block {
          NewPriority(votes, h);
          assert u.priority in PrioritiesAt(init, h);
        }
      }
      hide Descends, PrioritiesAt;
    }
  }

  lemma GrowsBy(s: set<Bytes>, x: Bytes)
    ensures s + {} == s && s + {x} != {} && |s + {x}| == |s| + if x in s then 0 else 1
  {
    if x in s {
      assert s + {x} == s;
    }
  }

  lemma PrioritiesGrow(votes: seq<Ballot>, h: nat)
    requires votes != []
    ensures var init, v := votes[..|votes| - 1], votes[|votes| - 1];
      PrioritiesAt(votes, h) == PrioritiesAt(init, h) + if v.height == h then {v.priority} else {}
  {
    var init, v := votes[..|votes| - 1], votes[|votes| - 1];
    assert forall i :: 0 <= i < |init| ==> init[i] == votes[i];
    forall x | x in PrioritiesAt(init, h) ensures x in PrioritiesAt(votes, h) {
      var i :| 0 <= i < |init| && init[i].height == h && init[i].priority == x;
      assert votes[i].priority == x;
    }
  }

  lemma NewPriority(votes: seq<Ballot>, h: nat)
    requires Descends(votes) && |votes| >= 2
    requires var u, v := votes[|votes| - 2], votes[|votes| - 1]; u.height == v.height == h && u.block != v.block
    ensures votes[|votes| - 1].priority !in PrioritiesAt(votes[..|votes| - 1], h)
  {
    var init, v := votes[..|votes| - 1], votes[|votes| - 1];
    var u := votes[|votes| - 2];
    if v.priority in PrioritiesAt(init, h) {
      var i :| 0 <= i < |init| && init[i].height == h && init[i].priority == v.priority;
      assert Follows(votes[|votes| - 2], v);
      if i < |votes| - 2 {
        assert Follows(votes[i], votes[|votes| - 2]);
        AboveStays(votes[i].priority, u.priority, v.priority);
      } else {
        LessIrreflexive(v.priority);
      }
    }
  }

  lemma AboveStays(x: Bytes, u: Bytes, v: Bytes)
    requires Less(v, u) && (!Less(x, u) || Less(u, x))
    ensures x != v
  {
    LessAsymmetric(v, u);
    if Less(u, x) {
      LessAsymmetric(u, x);
    }
  }

  // ---------------------------------------------------------------------------
  // After a vote phase
  // ---------------------------------------------------------------------------

  lemma {:induction false} LowestIsLowest(ps: seq<Pending>, h: nat, j: nat)
    requires j < |ps| && Candidate(ps[j], h)
    ensures var i := Lowest(ps, h); i < |ps| && !Less(ps[j].priority, ps[i].priority)
  {
    var last := |ps| - 1;
    var init := ps[..last];
    if j < last {
      LowestIsLowest(init, h, j);
      var i := Lowest(init, h);
      if Candidate(ps[last], h) && Less(ps[last].priority, ps[i].priority) {
        LowerThanBoth(ps[last].priority, ps[i].priority, ps[j].priority);
      }
    } else {
      LessIrreflexive(ps[last].priority);
      if Lowest(init, h) < last && Less(ps[last].priority, ps[Lowest(init, h)].priority) {
        assert Lowest(ps, h) == last;
      }
    }
  }

  /** A vote phase that has something to vote on. */
  ghost predicate Selects(n: Node, slot: U64)
    requires Sized(n)
  {
    && n.validator && Open(n.slotVotes, slot)
    && exists j :: 0 <= j < RING && Candidate(n.pending[j], Height(n.chain) + 1)
  }

  /** The lock the vote phase leaves, read off the state before it. */
  lemma LockAfterPhase(cr: Crypto, n: Node, slot: U64, now: U64) returns (best: nat)
    requires Sized(n) && Selects(n, slot)
    ensures best < RING && Candidate(n.pending[best], Height(n.chain) + 1)
    ensures forall j :: 0 <= j < RING && Candidate(n.pending[j], Height(n.chain) + 1) ==>
      !Less(n.pending[j].priority, n.pending[best].priority)
    ensures var r := VotePhase(cr, n, slot, now); var p := n.pending[best];
      && r.voteHeight == Height(n.chain) + 1
      && (r.voteBlock, r.votePriority) ==
        if Locked(n, p.priority) then (n.voteBlock, n.votePriority) else (p.hash, p.priority)
  {
    hide TryCommit, CastVote, Lowest, Backed, Touch, Open;
    var h := Height(n.chain) + 1;
    best := Lowest(n.pending, h);
    forall j | 0 <= j < RING && Candidate(n.pending[j], h)
      ensures best < RING && !Less(n.pending[j].priority, n.pending[best].priority)
    {
      LowestIsLowest(n.pending, h, j);
    }
    var m := n.(slotVotes := Touch(n.slotVotes, slot).0);
    var p := n.pending[best];
    if Locked(n, p.priority) {
      var i := Backed(n.pending, h, n.voteBlock);
      if i < RING {
        CastIs(cr, m, i, n.votePriority);
        CommitIsQuiet(cr, CastVote(cr, m, i, n.votePriority), i, false, now);
      }
    } else {
      CastIs(cr, m, best, p.priority);
      var v := CastVote(cr, m, best, p.priority).(voteHeight := h, voteBlock := p.hash, votePriority := p.priority);
      CommitIsQuiet(cr, v, best, false, now);
    }
  }

  /** After a vote phase, no undecided proposal for the next height has a lower priority than the lock. */
  lemma LockIsLowest(cr: Crypto, n: Node, slot: U64, now: U64, j: nat)
    requires Sized(n) && Selects(n, slot) && j < RING && Candidate(n.pending[j], Height(n.chain) + 1)
    ensures var r := VotePhase(cr, n, slot, now);
      r.voteHeight == Height(n.chain) + 1 && !Less(n.pending[j].priority, r.votePriority)
  {
    hide VotePhase, Selects;
    var best := LockAfterPhase(cr, n, slot, now);
    if Locked(n, n.pending[best].priority) {
      AtMostTransitive(n.votePriority, n.pending[best].priority, n.pending[j].priority);
    }
  }

  lemma AtMostTransitive(a: Bytes, b: Bytes, c: Bytes)
    requires !Less(b, a) && !Less(c, b)
    ensures !Less(c, a)
  {
    if Less(c, a) {
      LowerThanBoth(c, a, b);
    }
  }

  /**
   When a vote moves: at a height already voted on, an open vote phase abandons the locked block's
   priority if and only if an undecided proposal of strictly lower priority is in the ring.
   */
  lemma MovesIffLower(cr: Crypto, n: Node, slot: U64, now: U64)
    requires Sized(n) && n.validator && Open(n.slotVotes, slot) && n.voteHeight == Height(n.chain) + 1
    ensures VotePhase(cr, n, slot, now).votePriority != n.votePriority <==>
      exists j :: 0 <= j < RING && Candidate(n.pending[j], Height(n.chain) + 1)
        && Less(n.pending[j].priority, n.votePriority)
  {
    hide VotePhase, Open;
    var r := VotePhase(cr, n, slot, now);
    if Selects(n, slot) {
      var best := LockAfterPhase(cr, n, slot, now);
      if !Locked(n, n.pending[best].priority) {
        LessAsymmetric(n.pending[best].priority, n.votePriority);
      } else {
        forall j | 0 <= j < RING && Candidate(n.pending[j], Height(n.chain) + 1)
          ensures !Less(n.pending[j].priority, n.votePriority)
        {
          AtMostTransitive(n.votePriority, n.pending[best].priority, n.pending[j].priority);
        }
      }
    } else {
      NothingSelected(cr, n, slot, now);
    }
  }

  lemma NothingSelected(cr: Crypto, n: Node, slot: U64, now: U64)
    requires Sized(n) && !Selects(n, slot)
    ensures var r := VotePhase(cr, n, slot, now);
      r.votePriority == n.votePriority && r.voteBlock == n.voteBlock && r.voteHeight == n.voteHeight
        && r.votes == n.votes
  {
    hide Open, Touch, Lowest;
    var best := Lowest(n.pending, Height(n.chain) + 1);
  }

  // ---------------------------------------------------------------------------
  // Convergence
  // ---------------------------------------------------------------------------

  /** The undecided proposals for the next height, as hash and priority, whatever their ring order. */
  ghost function Undecided(n: Node): set<(Hash, Bytes)>
    requires Sized(n)
  {
    set j | 0 <= j < RING && Candidate(n.pending[j], Height(n.chain) + 1) :: (n.pending[j].hash, n.pending[j].priority)
  }

  /** `m` has strictly lower priority than every other member. */
  ghost predicate UniqueLowest(m: (Hash, Bytes), s: set<(Hash, Bytes)>) {
    m in s && forall x :: x in s && x != m ==> Less(m.1, x.1)
  }

  /** Ready to vote, and any earlier vote at this height was for one of the proposals in the ring. */
  ghost predicate Ready(n: Node, slot: U64)
    requires Sized(n)
  {
    && n.validator && Open(n.slotVotes, slot)
    && (n.voteHeight == Height(n.chain) + 1 ==> (n.voteBlock, n.votePriority) in Undecided(n))
  }

  lemma OneConverges(cr: Crypto, n: Node, slot: U64, now: U64, m: (Hash, Bytes))
    requires Sized(n) && Ready(n, slot) && UniqueLowest(m, Undecided(n))
    ensures var r := VotePhase(cr, n, slot, now);
      r.voteHeight == Height(n.chain) + 1 && (r.voteBlock, r.votePriority) == m
  {
    hide VotePhase, Open;
    var h := Height(n.chain) + 1;
    var at :| 0 <= at < RING && Candidate(n.pending[at], h) && m == (n.pending[at].hash, n.pending[at].priority);
    assert Selects(n, slot);
    var best := LockAfterPhase(cr, n, slot, now);
    var p := n.pending[best];
    assert (p.hash, p.priority) in Undecided(n);
    assert !Less(m.1, p.priority);
    LessTotal(m.1, p.priority);
    if Locked(n, p.priority) {
      assert (p.hash, p.priority) == m;
      assert !Less(m.1, n.votePriority);
    }
  }

  /**
   Any number of nodes at one height with the same undecided proposals, of which one has the lowest
   priority, are all locked on that proposal after one vote phase each, whatever the order of their
   rings, the slots and moments of their phases, and their earlier votes on these proposals.
   */
  lemma NodesConverge(cr: Crypto, ns: seq<Node>, slots: seq<U64>, nows: seq<U64>, h: nat, s: set<(Hash, Bytes)>,
      m: (Hash, Bytes))
    requires |slots| == |ns| && |nows| == |ns| && UniqueLowest(m, s)
    requires forall i :: 0 <= i < |ns| ==>
      Sized(ns[i]) && Ready(ns[i], slots[i]) && Height(ns[i].chain) + 1 == h && Undecided(ns[i]) == s
    ensures forall i :: 0 <= i < |ns| ==>
      var r := VotePhase(cr, ns[i], slots[i], nows[i]); r.voteHeight == h && r.voteBlock == m.0 && r.votePriority == m.1
  {
    hide VotePhase, Ready, UniqueLowest;
    forall i | 0 <= i < |ns|
      ensures var r := VotePhase(cr, ns[i], slots[i], nows[i]);
        r.voteHeight == h && r.voteBlock == m.0 && r.votePriority == m.1
    {
      OneConverges(cr, ns[i], slots[i], nows[i], m);
    }
  }
}
