/** Who can be convicted of a double vote: exactly those who cast one (src/state.c:511-540, src/codec.c:301-308). */
module Conviction {
  import opened Words
  import opened Types
  import opened Codec
  import opened Ledgers
  import opened Quorum
  import opened Chains
  import opened Domains
  import opened Ownership
  import opened Voting
  import opened VoteLocks
  import opened Network

  /** A key signs votes the node cast, inputs of proofs, and transaction hashes. */
  ghost predicate Signs(n: Node, m: Bytes) {
    || (exists i :: 0 <= i < |n.votes| && m == VoteMessage(n.votes[i].height, n.votes[i].block))
    || (exists alpha :: m == ProofInput(alpha))
    || |m| == 32
  }

  /** Everything the node signed: all its votes, and nothing of another form. */
  ghost predicate SignedAll(n: Node, signed: set<Bytes>) {
    && (forall m :: m in signed ==> Signs(n, m))
    && forall i :: 0 <= i < |n.votes| ==> VoteMessage(n.votes[i].height, n.votes[i].block) in signed
  }

  /** A signature made by this key passes as a vote exactly for the message it was made for. */
  ghost predicate Binding(cr: Crypto, kp: KeyPair, signed: set<Bytes>) {
    forall m, height: U64, block: Hash :: m in signed ==>
      (cr.verify(cr.sign(kp.sk, m), VoteMessage(height, block), kp.pk) <==> m == VoteMessage(height, block))
  }

  predicate MadeBy(cr: Crypto, kp: KeyPair, signed: set<Bytes>, sig: Sig) {
    exists m :: m in signed && sig == cr.sign(kp.sk, m)
  }

  /** Evidence against the key at `height` that consists of signatures it made. */
  ghost predicate Convicting(cr: Crypto, kp: KeyPair, signed: set<Bytes>, height: U64, e: SlashBody) {
    && e.validator == kp.pk && e.height == height && DoubleVote(cr, e)
    && MadeBy(cr, kp, signed, e.sigA) && MadeBy(cr, kp, signed, e.sigB)
  }

  /** A signature that passes as a vote is one the node cast. */
  lemma PassesOnlyIfCast(cr: Crypto, n: Node, signed: set<Bytes>, height: U64, block: Hash, sig: Sig)
    requires SignedAll(n, signed) && Binding(cr, n.kp, signed) && MadeBy(cr, n.kp, signed, sig)
    requires cr.verify(sig, VoteMessage(height, block), n.kp.pk)
    ensures HasCast(n, height, block)
  {
    hide VoteMessage, ProofInput;
    var m :| m in signed && sig == cr.sign(n.kp.sk, m);
    assert m == VoteMessage(height, block);
    forall alpha ensures m != ProofInput(alpha) && |m| != 32 {
      VotesAreApart(height, block, alpha, ZERO_HASH);
      VoteMessageBinds(height, block, height, block);
    }
    assert Signs(n, m);
    assert |m| != 32 by { VoteMessageBinds(height, block, height, block); }
    var i :| 0 <= i < |n.votes| && m == VoteMessage(n.votes[i].height, n.votes[i].block);
    VoteMessageBinds(height, block, n.votes[i].height, n.votes[i].block);
  }

  /**
   An honest node can be convicted at a height, from everything it ever signed, if and only if it moved
   its vote there. In particular one vote at a height convicts nobody.
   */
  lemma ConvictedIffMoved(cr: Crypto, g: Genesis, p: Peer, signed: set<Bytes>, height: U64)
    requires AllClean(p.events) && SignedAll(StateOf(cr, g, p), signed) && Binding(cr, p.kp, signed)
    ensures (exists e :: Convicting(cr, p.kp, signed, height, e)) <==> MovedAt(StateOf(cr, g, p), height)
  {
    hide Steps, Descends, VoteMessage, LockFollows, GenesisChain, Binding, SignedAll, StateOf;
    var n := StateOf(cr, g, p);
    VotesOf(cr, g, p);
    if e :| Convicting(cr, p.kp, signed, height, e) {
      PassesOnlyIfCast(cr, n, signed, height, e.hashA, e.sigA);
      PassesOnlyIfCast(cr, n, signed, height, e.hashB, e.sigB);
      TwoVotesMeanAMove(n, height, e.hashA, e.hashB);
    }
    if MovedAt(n, height) {
      var i, j :| 0 <= i < j < |n.votes| && n.votes[i].height == height && n.votes[j].height == height
        && n.votes[i].block != n.votes[j].block && Less(n.votes[j].priority, n.votes[i].priority);
      var u, v := n.votes[i], n.votes[j];
      CastVerifies(cr, n, signed, i);
      CastVerifies(cr, n, signed, j);
      assert Convicting(cr, p.kp, signed, height, Evidence(height, u.block, u.entry, v.block, v.entry));
    }
  }

  lemma VotesOf(cr: Crypto, g: Genesis, p: Peer)
    requires AllClean(p.events)
    ensures var n := StateOf(cr, g, p); Descends(n.votes) && AllSigned(cr, n) && n.kp == p.kp
  {
    hide Steps, Descends, LockFollows, GenesisChain, AllSigned;
    GenesisHasOneBlock(cr, g);
    VotesDescend(cr, p.kp, p.validator, GenesisChain(cr, g), p.events);
  }

  lemma CastVerifies(cr: Crypto, n: Node, signed: set<Bytes>, i: nat)
    requires AllSigned(cr, n) && SignedAll(n, signed) && Binding(cr, n.kp, signed) && i < |n.votes|
    ensures var v := n.votes[i];
      && MadeBy(cr, n.kp, signed, v.entry.sig) && v.entry.signer == n.kp.pk
      && cr.verify(v.entry.sig, VoteMessage(v.height, v.block), n.kp.pk)
  {
    hide VoteMessage, ProofInput;
    var v := n.votes[i];
    assert SignedBy(cr, n.kp, v);
    assert VoteMessage(v.height, v.block) in signed;
  }

  /** Evidence in the block against this key is made of its own signatures. */
  ghost predicate OnlyOwnSignatures(cr: Crypto, kp: KeyPair, signed: set<Bytes>, b: Block) {
    forall i :: 0 <= i < |b.txs| && Convicts(cr, b.txs[i], kp.pk) ==>
      var e := ParseSlash(b.txs[i].body).value;
      MadeBy(cr, kp, signed, e.sigA) && MadeBy(cr, kp, signed, e.sigB)
  }

  /** A validator that never moves its vote and sends nothing keeps its stake in every block of every chain. */
  lemma SteadyValidatorKeepsStake(cr: Crypto, g: Genesis, c: Chain, h: nat, p: Peer, signed: set<Bytes>)
    requires Grown(cr, g, c) && 1 <= h < |c.blocks| && p.kp.pk != REWARD_POOL
    requires Fits(cr, LedgerBelow(cr, g, c, h), c.blocks[h], p.kp.pk)
    requires AllClean(p.events) && SignedAll(StateOf(cr, g, p), signed) && Binding(cr, p.kp, signed)
    requires OnlyOwnSignatures(cr, p.kp, signed, c.blocks[h])
    requires forall height: U64 :: !MovedAt(StateOf(cr, g, p), height)
    requires !Spends(cr, c.blocks[h], p.kp.pk)
    ensures Get(LedgerBelow(cr, g, c, h + 1), p.kp.pk).stake >= Get(LedgerBelow(cr, g, c, h), p.kp.pk).stake
  {
    hide Grown, LedgerBelow, Fits, StateOf, SignedAll, Binding, ParseSlash, MadeBy, DoubleVote, MovedAt, Get;
    OnlyItsOwnerSpends(cr, g, c, h, p.kp.pk);
    if Convicted(cr, c.blocks[h].txs, p.kp.pk) {
      var i :| 0 <= i < |c.blocks[h].txs| && Convicts(cr, c.blocks[h].txs[i], p.kp.pk);
      var e := ParseSlash(c.blocks[h].txs[i].body).value;
      assert Convicting(cr, p.kp, signed, e.height, e);
      ConvictedIffMoved(cr, g, p, signed, e.height);
    }
  }
}
