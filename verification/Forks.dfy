/**
 Fork accountability over whole runs: two nodes that grew different chains from one genesis hold,
 between them, slashable evidence (src/chain.c:910-1150, src/state.c:511-540).
 */
module Forks {
  import opened Words
  import opened Types
  import opened Codec
  import opened Ledgers
  import opened Quorum
  import opened Chains

  // ---------------------------------------------------------------------------
  // Execution ignores signatures
  // ---------------------------------------------------------------------------

  lemma PrecheckIgnoresSignature(l: Ledger, t: Tx, sig: Sig, slot: U64, baseFee: U64)
    ensures Precheck(l, t.(sig := sig), slot, baseFee) == Precheck(l, t, slot, baseFee)
  {
    hide ParseTransfer, Fee, Get;
  }

  lemma BodyIgnoresSignature(cr: Crypto, l: Ledger, t: Tx, sig: Sig, slot: U64, baseFee: U64)
    requires Precheck(l, t, slot, baseFee).None? && Precheck(l, t.(sig := sig), slot, baseFee).None?
    ensures Body(cr, l, t.(sig := sig), slot, baseFee) == Body(cr, l, t, slot, baseFee)
  {
    hide ParseTransfer, ParseSlash, ParseName, ParseStake, Get, DoubleVote, Precheck, Credit, Set;
  }

  lemma ApplyIgnoresSignature(cr: Crypto, l: Ledger, t: Tx, u: Tx, slot: U64, baseFee: U64)
    requires Unsigned(t) == Unsigned(u)
    ensures ApplyTx(cr, l, t, slot, baseFee) == ApplyTx(cr, l, u, slot, baseFee)
  {
    hide Precheck, Body, Fee, Set;
    assert u == t.(sig := u.sig);
    PrecheckIgnoresSignature(l, t, u.sig, slot, baseFee);
    if Precheck(l, t, slot, baseFee).None? {
      BodyIgnoresSignature(cr, l, t, u.sig, slot, baseFee);
      var e := Body(cr, l, t, slot, baseFee);
      assert Paid(e, u, baseFee) == Paid(e, t, baseFee);
    }
  }

  lemma {:induction false} ExecIgnoresSignatures(cr: Crypto, l: Ledger, ts: seq<Tx>, us: seq<Tx>, slot: U64,
      baseFee: U64)
    requires |ts| == |us| && forall i :: 0 <= i < |ts| ==> Unsigned(ts[i]) == Unsigned(us[i])
    requires ExecTxs(cr, l, ts, slot, baseFee).Some? && ExecTxs(cr, l, us, slot, baseFee).Some?
    ensures ExecTxs(cr, l, ts, slot, baseFee) == ExecTxs(cr, l, us, slot, baseFee)
  {
    hide ApplyTx, Unsigned;
    if ts != [] {
      var n := |ts| - 1;
      ExecIgnoresSignatures(cr, l, ts[..n], us[..n], slot, baseFee);
      var x := ExecTxs(cr, l, ts[..n], slot, baseFee).value;
      ApplyIgnoresSignature(cr, x.ledger, ts[n], us[n], slot, baseFee);
    }
  }

  // ---------------------------------------------------------------------------
  // One content, one ledger
  // ---------------------------------------------------------------------------

  /** The two chains hold the same content below height `n`. */
  predicate Agree(a: seq<Block>, b: seq<Block>, n: nat) {
    n <= |a| && n <= |b| && forall i :: 0 <= i < n ==> SameContent(a[i], b[i])
  }

  /** What acceptance established about the block of height `h`. */
  lemma AcceptedFacts(cr: Crypto, g: Genesis, c: Chain, h: nat)
    requires Grown(cr, g, c) && 1 <= h < |c.blocks|
    ensures var b := c.blocks[h]; var p := Replay(cr, g, c.blocks[..h]);
      && p.blocks == c.blocks[..h]
      && b.header.height == h && b.header.txRoot == TxRoot(cr, b.txs)
      && ExecTxs(cr, p.ledger, b.txs, b.header.slot, b.header.baseFee).Some?
      && CommitOk(cr, SeedFor(cr, p, b.header.slot), p.ledger, PostLedger(cr, p.ledger, b), p.live, h - 1, b)
  {
    hide Replay, CommitOk, ExecTxs, PostLedger, TxRoot, BlockHash, SlotTime, ExpectedBaseFee, LeaderOk;
    GrownPrefix(cr, g, c, h);
    var p := Replay(cr, g, c.blocks[..h]);
    var now: U64 :| BlockVerdict(cr, p, c.blocks[h], now) == Ok;
  }

  lemma {:induction false} AgreementFixesLedger(cr: Crypto, g: Genesis, c: Chain, d: Chain, h: nat)
    requires Grown(cr, g, c) && Grown(cr, g, d)
    requires 1 <= h && Agree(c.blocks, d.blocks, h)
    ensures LedgerBelow(cr, g, c, h) == LedgerBelow(cr, g, d, h)
    decreases h
  {
    hide Grown, CommitOk, SameContent, ApplyTx, ExecTxs;
    if h > 1 {
      AgreementFixesLedger(cr, g, c, d, h - 1);
      var a, b := c.blocks[h - 1], d.blocks[h - 1];
      AcceptedFacts(cr, g, c, h - 1);
      AcceptedFacts(cr, g, d, h - 1);
      assert c.blocks[..h][..h - 1] == c.blocks[..h - 1] && d.blocks[..h][..h - 1] == d.blocks[..h - 1];
      SamePost(cr, LedgerBelow(cr, g, c, h - 1), a, b);
    }
  }

  lemma SamePost(cr: Crypto, l: Ledger, a: Block, b: Block)
    requires SameContent(a, b)
    requires ExecTxs(cr, l, a.txs, a.header.slot, a.header.baseFee).Some?
    requires ExecTxs(cr, l, b.txs, b.header.slot, b.header.baseFee).Some?
    ensures PostLedger(cr, l, a) == PostLedger(cr, l, b)
  {
    hide ExecTxs, Unsigned;
    ExecIgnoresSignatures(cr, l, a.txs, b.txs, a.header.slot, a.header.baseFee);
  }

  // ---------------------------------------------------------------------------
  // The theorem
  // ---------------------------------------------------------------------------

  /** What the wire and honest peers give, and what each theorem below asks of a chain. */
  ghost predicate Presentable(cr: Crypto, g: Genesis, c: Chain) {
    forall h :: 1 <= h < |c.blocks| ==> PresentableAt(cr, g, c, h)
  }

  /** Transaction count as announced, no signer listed twice, and fewer than 2^32 accounts below it. */
  ghost predicate PresentableAt(cr: Crypto, g: Genesis, c: Chain, h: nat)
    requires 1 <= h < |c.blocks|
  {
    && c.blocks[h].header.txCount == |c.blocks[h].txs|
    && DistinctSigners(c.blocks[h].signers)
    && |LedgerBelow(cr, g, c, h).accounts| < W32
  }

  /** No two strings hashed for the blocks of height `h` collide. */
  ghost predicate NoCollisionAt(cr: Crypto, c: Chain, d: Chain, h: nat)
    requires h < |c.blocks| && h < |d.blocks|
  {
    NoCollision(cr, Preimages(cr, c.blocks[h]) + Preimages(cr, d.blocks[h]))
  }

  /** One chain's content is a prefix of the other's. */
  predicate NoFork(c: Chain, d: Chain) {
    Agree(c.blocks, d.blocks, if |c.blocks| <= |d.blocks| then |c.blocks| else |d.blocks|)
  }

  /** At the first height where the contents differ, a validator with stake signed both blocks. */
  lemma FirstDifferenceIsDoubleSigned(cr: Crypto, g: Genesis, c: Chain, d: Chain, h: nat)
    requires Grown(cr, g, c) && Grown(cr, g, d) && Presentable(cr, g, c) && Presentable(cr, g, d)
    requires 1 <= h < |c.blocks| && h < |d.blocks| && NoCollisionAt(cr, c, d, h)
    requires Agree(c.blocks, d.blocks, h) && !SameContent(c.blocks[h], d.blocks[h])
    ensures DoubleSigner(cr, LedgerBelow(cr, g, c, h), c.blocks[h], d.blocks[h])
  {
    hide Grown, CommitOk, SameContent, DoubleSigner, BlockHash, TxRoot, Preimages, NoCollision, ExecTxs,
      DistinctSigners,
      Replay, SeedFor, PostLedger, Agree;
    var a, b := c.blocks[h], d.blocks[h];
    AcceptedFacts(cr, g, c, h);
    AcceptedFacts(cr, g, d, h);
    AgreementFixesLedger(cr, g, c, d, h);
    assert PresentableAt(cr, g, c, h) && PresentableAt(cr, g, d, h);
    if BlockHash(cr, a.header) == BlockHash(cr, b.header) {
      HashPinsContent(cr, a, b);
    }
    var p, q := Replay(cr, g, c.blocks[..h]), Replay(cr, g, d.blocks[..h]);
    TwoCommitsExposeADoubleSigner(
      cr, p.ledger,
      a, SeedFor(cr, p, a.header.slot), PostLedger(cr, p.ledger, a), p.live, h - 1,
      b, SeedFor(cr, q, b.header.slot), PostLedger(cr, q.ledger, b), q.live, h - 1);
  }

  lemma {:induction false} FirstDifference(a: seq<Block>, b: seq<Block>, n: nat) returns (h: nat)
    requires n <= |a| && n <= |b| && !Agree(a, b, n)
    ensures h < n && Agree(a, b, h) && !SameContent(a[h], b[h])
  {
    hide SameContent;
    if Agree(a, b, n - 1) {
      h := n - 1;
    } else {
      h := FirstDifference(a, b, n - 1);
    }
  }

  /** Every use of this evidence by somebody else destroys what stake the validator still has. */
  ghost predicate Slashes(cr: Crypto, e: SlashBody) {
    forall l: Ledger, tx: Tx, slot: U64, baseFee: U64 {:trigger ApplyTx(cr, l, tx, slot, baseFee)} ::
      && tx.kind == SLASH_EVIDENCE && tx.body == SlashBytes(e) && e.validator != tx.sender
      && Precheck(l, tx, slot, baseFee).None? && Get(l, e.validator).stake > 0
      ==>
      var (after, r) := ApplyTx(cr, l, tx, slot, baseFee);
      r.Included? && r.fault.None? && Get(after, e.validator).stake == 0
  }

  lemma DoubleVoteSlashes(cr: Crypto, e: SlashBody)
    requires DoubleVote(cr, e)
    ensures Slashes(cr, e)
  {
    hide ApplyTx, Precheck, SlashBytes, DoubleVote;
    forall l: Ledger, tx: Tx, slot: U64, baseFee: U64
      | && tx.kind == SLASH_EVIDENCE && tx.body == SlashBytes(e) && e.validator != tx.sender
        && Precheck(l, tx, slot, baseFee).None? && Get(l, e.validator).stake > 0
      ensures var (after, r) := ApplyTx(cr, l, tx, slot, baseFee);
        r.Included? && r.fault.None? && Get(after, e.validator).stake == 0
    {
      EvidenceIsAccepted(cr, l, tx, slot, baseFee, e);
    }
  }

  /** Evidence against a validator that had stake when both blocks of height `h` were committed. */
  ghost predicate Convicts(cr: Crypto, g: Genesis, c: Chain, h: nat, e: SlashBody)
    requires 1 <= h <= |c.blocks|
  {
    DoubleVote(cr, e) && Slashes(cr, e) && e.height == h
      && Get(LedgerBelow(cr, g, c, h), e.validator).stake >= MIN_STAKE
  }

  /** The two signatures of `e` are entries of the certificates of `a` and `b`, by one signer. */
  ghost predicate FromCertificates(cr: Crypto, a: Block, b: Block, e: SlashBody) {
    exists i, j :: 0 <= i < |a.signers| && 0 <= j < |b.signers| && Certifies(cr, a, i, b, j, e)
  }

  predicate Certifies(cr: Crypto, a: Block, i: nat, b: Block, j: nat, e: SlashBody)
    requires i < |a.signers| && j < |b.signers|
  {
    && a.signers[i].signer == b.signers[j].signer
    && e == Evidence(a.header.height, BlockHash(cr, a.header), a.signers[i], BlockHash(cr, b.header), b.signers[j])
  }

  /** `h` is the first height at which the two chains hold different content. */
  predicate ForkAt(c: Chain, d: Chain, h: nat) {
    && 1 <= h < |c.blocks| && h < |d.blocks|
    && Agree(c.blocks, d.blocks, h) && !SameContent(c.blocks[h], d.blocks[h])
  }

  /**
   Accountable safety. For any two runs of `accept_block` from one genesis: either one chain extends
   the other, or the certificates of the first forked height contain evidence that convicts a
   validator with stake at that height and that `apply_tx` accepts from anybody else.
   */
  lemma ForkIsSlashable(cr: Crypto, g: Genesis, xs: seq<Offer>, ys: seq<Offer>) returns (h: nat, e: SlashBody)
    requires Presentable(cr, g, Run(cr, g, xs)) && Presentable(cr, g, Run(cr, g, ys))
    requires var c, d := Run(cr, g, xs), Run(cr, g, ys);
      forall k :: 0 <= k < |c.blocks| && k < |d.blocks| ==> NoCollisionAt(cr, c, d, k)
    ensures var c, d := Run(cr, g, xs), Run(cr, g, ys);
      NoFork(c, d) ||
      (ForkAt(c, d, h) && FromCertificates(cr, c.blocks[h], d.blocks[h], e) && Convicts(cr, g, c, h, e))
  {
    hide Run, Grown, SameContent, CommitOk, BlockHash, DoubleVote, LedgerBelow, NoCollisionAt, Presentable, Slashes;
    var c, d := Run(cr, g, xs), Run(cr, g, ys);
    RunIsReplay(cr, g, xs);
    RunIsReplay(cr, g, ys);
    h, e := 0, SlashBody(ZERO_HASH, 0, ZERO_HASH, ZERO_SIG, ZERO_HASH, ZERO_SIG);
    if !NoFork(c, d) {
      h := FirstDifference(c.blocks, d.blocks, if |c.blocks| <= |d.blocks| then |c.blocks| else |d.blocks|);
      GenesisAgrees(cr, g, c, d);
      FirstDifferenceIsDoubleSigned(cr, g, c, d, h);
      var a, b := c.blocks[h], d.blocks[h];
      var i, j :| 0 <= i < |a.signers| && 0 <= j < |b.signers| && DoublePair(cr, LedgerBelow(cr, g, c, h), a, b, i, j);
      e := Evidence(a.header.height, BlockHash(cr, a.header), a.signers[i], BlockHash(cr, b.header), b.signers[j]);
      DoubleVoteSlashes(cr, e);
      AcceptedFacts(cr, g, c, h);
      assert Certifies(cr, a, i, b, j, e);
    }
  }

  lemma GenesisAgrees(cr: Crypto, g: Genesis, c: Chain, d: Chain)
    requires Grown(cr, g, c) && Grown(cr, g, d)
    ensures c.blocks != [] && d.blocks != [] && SameContent(c.blocks[0], d.blocks[0])
  {
    hide GenesisBlock, Accepted, Replay;
    GrownPrefix(cr, g, c, 1);
    GrownPrefix(cr, g, d, 1);
  }
}
