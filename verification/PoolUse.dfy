/** The transaction pool in the hands of a node (src/consensus.c:446-451, 663-668). */
module PoolUse {
  import opened Words
  import opened Types
  import opened Codec
  import opened Chains
  import opened Voting
  import Agreement
  import Pool
  import PoolRules

  lemma RemovedIsGone(s: seq<Pool.Entry>, h: Hash)
    requires Pool.Kept(s)
    ensures Pool.Kept(Pool.Remove(s, h))
    ensures forall e :: e in Pool.Remove(s, h) ==> e in s && e.hash != h
  {
    hide Pool.Position;
    var i := Pool.Position(s, h);
    if i < |s| {
      Pool.PartKept(s, i);
      var r := Pool.Without(s, i);
      forall e | e in r ensures e in s && e.hash != h {
        var j :| 0 <= j < |r| && r[j] == e;
        var k := if j < i then j else j + 1;
        assert r[j] == s[k];
        assert Pool.Apart(s[if k < i then k else i], s[if k < i then i else k]);
      }
    }
  }

  /** After a commit none of the block's transactions is left in the pool, and nothing else was added. */
  lemma {:induction false} PurgedAreGone(cr: Crypto, pool: seq<Pool.Entry>, txs: seq<Tx>)
    requires Pool.Kept(pool)
    ensures Pool.Kept(Purge(cr, pool, txs))
    ensures forall e :: e in Purge(cr, pool, txs) ==>
      e in pool && forall i :: 0 <= i < |txs| ==> e.hash != TxHash(cr, txs[i])
  {
    hide Pool.Remove, Pool.Kept, TxHash;
    if txs != [] {
      var init, last := txs[..|txs| - 1], txs[|txs| - 1];
      PurgedAreGone(cr, pool, init);
      RemovedIsGone(Purge(cr, pool, init), TxHash(cr, last));
      assert forall i :: 0 <= i < |init| ==> init[i] == txs[i];
    }
  }

  /** Transactions that are not in the block stay. */
  lemma {:induction false} PurgeKeepsTheRest(cr: Crypto, pool: seq<Pool.Entry>, txs: seq<Tx>, e: Pool.Entry)
    requires e in pool && forall i :: 0 <= i < |txs| ==> e.hash != TxHash(cr, txs[i])
    ensures e in Purge(cr, pool, txs)
  {
    hide Pool.Remove, TxHash;
    if txs != [] {
      var init, last := txs[..|txs| - 1], txs[|txs| - 1];
      assert forall i :: 0 <= i < |init| ==> init[i] == txs[i];
      PurgeKeepsTheRest(cr, pool, init, e);
      PoolRules.RemoveKeepsOthers(Purge(cr, pool, init), TxHash(cr, last), e);
    }
  }

  /** The pool keeps its invariant and gains nothing, and the node stays on its network. */
  ghost predicate Tended(n: Node, r: Node)
    requires Sized(n) && Sized(r)
  {
    Pool.Kept(r.pool) && (forall e :: e in r.pool ==> e in n.pool) && r.chain.chainId == n.chain.chainId
  }

  lemma CommitKeepsPool(cr: Crypto, n: Node, i: nat, force: bool, now: U64)
    requires Sized(n) && i < RING && Pool.Kept(n.pool)
    ensures Tended(n, TryCommit(cr, n, i, force, now))
  {
    hide BlockVerdict, ThresholdMet, InGrace, PostLedger, Entries, Pool.Kept, Purge;
    if n.pending[i].Held? {
      PurgedAreGone(cr, n.pool, n.pending[i].block.txs);
    }
  }

  lemma BlockKeepsPool(cr: Crypto, n: Node, b: Block, now: U64)
    requires Sized(n) && Pool.Kept(n.pool)
    ensures Tended(n, HandleBlock(cr, n, b, now))
  {
    hide TryCommit, Welcome, Merge, Find, Pool.Kept, Alloc, PriorityOf, NoteProposal, BlockHash;
    var i := Find(n.pending, BlockHash(cr, b.header));
    if i < RING {
      var p := n.pending[i];
      CommitKeepsPool(cr, n.(pending := n.pending[i := p.(signers := Merge(p.signers, b.signers))]), i, false, now);
    } else {
      var (m, j) := Stash(cr, n, b, now);
      CommitKeepsPool(cr, m, j, false, now);
    }
  }

  lemma VoteKeepsPool(cr: Crypto, n: Node, height: U64, hash: Hash, s: Signer, now: U64)
    requires Sized(n) && Pool.Kept(n.pool)
    ensures Tended(n, HandleVote(cr, n, height, hash, s, now))
  {
    hide TryCommit, VoteOk, AddSigner, Lists, Find, Pool.Kept;
    var i := Find(n.pending, hash);
    if i < RING {
      var p := n.pending[i];
      CommitKeepsPool(cr, n.(pending := n.pending[i := p.(signers := AddSigner(p.signers, s))]), i, false, now);
    }
  }

  lemma PhaseKeepsPool(cr: Crypto, n: Node, slot: U64, now: U64)
    requires Sized(n) && Pool.Kept(n.pool)
    ensures Tended(n, VotePhase(cr, n, slot, now))
  {
    hide TryCommit, Lowest, Backed, Touch, Open, Pool.Kept, CommitteeProof, NoteVote, AddSigner, OurEntry;
    var h, best := Height(n.chain) + 1, Lowest(n.pending, Height(n.chain) + 1);
    if n.validator && Open(n.slotVotes, slot) && best < RING {
      var m := n.(slotVotes := Touch(n.slotVotes, slot).0);
      if Locked(n, n.pending[best].priority) {
        var i := Backed(n.pending, h, n.voteBlock);
        if i < RING {
          CommitKeepsPool(cr, CastVote(cr, m, i, n.votePriority), i, false, now);
        }
      } else {
        var p := n.pending[best];
        var v := CastVote(cr, m, best, p.priority).(voteHeight := h, voteBlock := p.hash, votePriority := p.priority);
        CommitKeepsPool(cr, v, best, false, now);
      }
    }
  }

  lemma {:induction false} SealKeepsPool(cr: Crypto, n: Node, slot: U64, k: nat, now: U64)
    requires Sized(n) && k <= RING && Pool.Kept(n.pool)
    ensures Tended(n, SealUpTo(cr, n, slot, k, now))
  {
    hide TryCommit, Pool.Kept;
    if k > 0 {
      SealKeepsPool(cr, n, slot, k - 1, now);
      CommitKeepsPool(cr, SealUpTo(cr, n, slot, k - 1, now), k - 1, true, now);
    }
  }

  lemma ProposeKeepsPool(cr: Crypto, n: Node, slot: U64, now: U64)
    requires Sized(n) && Pool.Kept(n.pool)
    ensures Tended(n, Propose(cr, n, slot, now))
  {
    hide TryCommit, Agreement.BuildBlock, Pool.Kept, Leads, Candidates, Pool.Unexpired, Alloc, PriorityOf,
      NoteProposal, BlockHash;
    Pool.StepKept(cr, 0, n.pool, Pool.Expire(slot));
    forall e | e in Pool.Unexpired(n.pool, slot) ensures e in n.pool {
      PoolRules.UnexpiredIsPart(n.pool, slot, e);
    }
    var pruned := n.(pool := Pool.Unexpired(n.pool, slot));
    match Agreement.BuildBlock(cr, n.chain, slot, n.kp, Candidates(n.pool))
    case None =>
    case Some(b) =>
      var (m, i) := Stash(cr, pruned, b, now);
      CommitKeepsPool(cr, m.(blocks := n.blocks + [b]), i, false, now);
  }

  lemma SubmitKeepsPool(cr: Crypto, n: Node, tx: Tx, slot: U64)
    requires Sized(n) && Pool.Kept(n.pool) && PoolRules.AllGenuine(cr, n.chain.chainId, n.pool)
    ensures var r := Pool.Add(cr, n.chain.chainId, n.pool, n.chain.ledger, tx, slot).0;
      Pool.Kept(r) && PoolRules.AllGenuine(cr, n.chain.chainId, r)
  {
    hide Pool.Add, Pool.Kept, PoolRules.AllGenuine;
    Pool.StepKept(cr, n.chain.chainId, n.pool, Pool.Offer(n.chain.ledger, tx, slot));
    PoolRules.AddKeepsGenuine(cr, n.chain.chainId, n.pool, n.chain.ledger, tx, slot);
  }

  lemma StepTends(cr: Crypto, n: Node, e: Event)
    requires Sized(n) && Bounded(e) && Pool.Kept(n.pool) && !e.Submit?
    ensures Tended(n, Step(cr, n, e))
  {
    hide HandleBlock, HandleVote, VotePhase, SealUpTo, Propose, Tended;
    match e
    case BlockIn(b, now) => BlockKeepsPool(cr, n, b, now);
    case VoteIn(height, hash, s, now) => VoteKeepsPool(cr, n, height, hash, s, now);
    case Vote(slot, now) => PhaseKeepsPool(cr, n, slot, now);
    case Seal(slot, now) => SealKeepsPool(cr, n, slot, RING, now);
    case Lead(slot, now) => ProposeKeepsPool(cr, n, slot, now);
  }

  /**
   Over every run of a node, whatever is submitted, proposed and committed, its pool keeps its invariant
   and holds only genuine transactions.
   */
  lemma {:induction false} NodePoolStaysKept(cr: Crypto, kp: KeyPair, validator: bool, c: Chain, es: seq<Event>)
    requires c.blocks != [] && AllBounded(es)
    ensures var n := Steps(cr, Start(kp, validator, c), es);
      Pool.Kept(n.pool) && PoolRules.AllGenuine(cr, c.chainId, n.pool) && n.chain.chainId == c.chainId
  {
    hide HandleBlock, HandleVote, VotePhase, SealUpTo, Propose, Pool.Add, PoolRules.AllGenuine, Pool.Kept;
    if es == [] {
      NothingPooled(cr, kp, validator, c);
    } else {
      var n, e := Steps(cr, Start(kp, validator, c), es[..|es| - 1]), es[|es| - 1];
      NodePoolStaysKept(cr, kp, validator, c, es[..|es| - 1]);
      if e.Submit? {
        SubmitKeepsPool(cr, n, e.tx, e.slot);
      } else {
        StepTends(cr, n, e);
        PoolRules.SubsetIsGenuine(cr, c.chainId, n.pool, Step(cr, n, e).pool);
      }
    }
  }

  lemma NothingPooled(cr: Crypto, kp: KeyPair, validator: bool, c: Chain)
    requires c.blocks != []
    ensures Pool.Kept(Start(kp, validator, c).pool) && PoolRules.AllGenuine(cr, c.chainId, Start(kp, validator, c).pool)
  {
  }
}
