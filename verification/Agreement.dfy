/** Block construction, and its agreement with block acceptance (src/chain.c:1156-1270, 973-1150). */
module Agreement {
  import opened Words
  import opened Types
  import opened Codec
  import opened Market
  import opened Ledgers
  import Admission
  import opened Snapshots
  import opened Quorum
  import opened Chains
  import opened ChainFacts

  /** The candidates kept so far and the state they lead to. */
  datatype Selection = Selection(kept: seq<Tx>, exec: Exec)

  /** One candidate: skipped when unsigned, too big for the block, or rejected (src/chain.c:1203-1212). */
  function Consider(cr: Crypto, s: Selection, tx: Tx, slot: U64, baseFee: U64): Selection {
    var (after, r) := ApplyTx(cr, s.exec.ledger, tx, slot, baseFee);
    if !TxVerify(cr, tx) || (s.exec.gas + TotalGas(tx)) % W64 > BLOCK_GAS_LIMIT || r.Rejected? then s
    else Selection(s.kept + [tx], Exec(after, s.exec.gas + r.gas, (s.exec.tips + r.tip) % W64))
  }

  function Select(cr: Crypto, l: Ledger, candidates: seq<Tx>, slot: U64, baseFee: U64): Selection {
    if candidates == [] then Selection([], Exec(l, 0, 0))
    else Consider(cr, Select(cr, l, candidates[..|candidates| - 1], slot, baseFee), candidates[|candidates| - 1],
      slot, baseFee)
  }

  /** `ac_chain_build_block`: nothing unless the proposer has enough stake. */
  ghost function BuildBlock(cr: Crypto, c: Chain, slot: U64, kp: KeyPair, candidates: seq<Tx>): Option<Block>
    requires c.blocks != [] && |candidates| < W32
  {
    if Get(c.ledger, kp.pk).stake < MIN_STAKE then None
    else
      SelectIsShort(cr, c.ledger, candidates, slot, ExpectedBaseFee(c));
      var s := Select(cr, c.ledger, candidates, slot, ExpectedBaseFee(c));
      var post := PayLeader(s.exec.ledger, kp.pk, Height(c) + 1, s.exec.tips);
      var proof := VrfProve(cr, LeaderAlpha(SeedFor(cr, c, slot), slot), kp);
      Some(Block(
        Header(BLOCK_VERSION, (Height(c) + 1) % W64, slot, BlockHash(cr, Tip(c)), SlotTime(c, slot), kp.pk, proof,
               StateRoot(cr, post), TxRoot(cr, s.kept), ExpectedBaseFee(c), s.exec.gas % W64, BLOCK_GAS_LIMIT,
                 |s.kept|),
        s.kept, []))
  }

  lemma {:induction false} SelectIsShort(cr: Crypto, l: Ledger, candidates: seq<Tx>, slot: U64, baseFee: U64)
    ensures var s := Select(cr, l, candidates, slot, baseFee);
      |s.kept| <= |candidates| && s.exec.gas <= 1033 * |s.kept|
  {
    hide ApplyTx;
    if candidates != [] {
      var init, tx := candidates[..|candidates| - 1], candidates[|candidates| - 1];
      SelectIsShort(cr, l, init, slot, baseFee);
      var s := Select(cr, l, init, slot, baseFee);
      if ApplyTx(cr, s.exec.ledger, tx, slot, baseFee).1.Included? {
        GasBound(cr, s.exec.ledger, tx, slot, baseFee);
      }
    }
  }

  /** Skipping failed candidates and executing only the kept ones lead to the same state. */
  lemma {:induction false} KeptExecutesAlike(cr: Crypto, l: Ledger, candidates: seq<Tx>, slot: U64, baseFee: U64)
    requires |candidates| <= BLOCK_MAX_TXS
    ensures var s := Select(cr, l, candidates, slot, baseFee);
      ExecTxs(cr, l, s.kept, slot, baseFee) == Some(s.exec)
  {
    hide ApplyTx, TxVerify;
    if candidates != [] {
      var init, tx := candidates[..|candidates| - 1], candidates[|candidates| - 1];
      KeptExecutesAlike(cr, l, init, slot, baseFee);
      SelectIsShort(cr, l, init, slot, baseFee);
      var s, t := Select(cr, l, init, slot, baseFee), Select(cr, l, candidates, slot, baseFee);
      if t != s {
        GasBound(cr, s.exec.ledger, tx, slot, baseFee);
        assert t.kept[..|t.kept| - 1] == s.kept;
      }
    }
  }

  /** Among at most 4096 candidates the gas limit never turns a known kind away. */
  lemma GasNeverSkips(cr: Crypto, l: Ledger, candidates: seq<Tx>, tx: Tx, slot: U64, baseFee: U64)
    requires |candidates| < BLOCK_MAX_TXS && TxVerify(cr, tx)
    requires var s := Select(cr, l, candidates, slot, baseFee);
      ApplyTx(cr, s.exec.ledger, tx, slot, baseFee).1.Included?
    ensures Select(cr, l, candidates + [tx], slot, baseFee).kept == Select(cr, l, candidates, slot, baseFee).kept + [tx]
  {
    hide ApplyTx, TxVerify;
    SelectIsShort(cr, l, candidates, slot, baseFee);
    var s := Select(cr, l, candidates, slot, baseFee);
    assert (candidates + [tx])[..|candidates|] == candidates;
    IncludedKindKnown(cr, s.exec.ledger, tx, slot, baseFee);
  }

  /**
   Candidate by candidate, among at most 4096: kept if and only if it is signed and the state reached so far
   includes it.
   */
  lemma KeptIffItExecutes(cr: Crypto, l: Ledger, candidates: seq<Tx>, slot: U64, baseFee: U64, i: nat)
    requires i < |candidates| <= BLOCK_MAX_TXS
    ensures var s := Select(cr, l, candidates[..i], slot, baseFee);
      var t := Select(cr, l, candidates[..i + 1], slot, baseFee);
      var tx := candidates[i]; var (after, r) := ApplyTx(cr, s.exec.ledger, tx, slot, baseFee);
      if TxVerify(cr, tx) && r.Included? then
        t == Selection(s.kept + [tx], Exec(after, s.exec.gas + r.gas, (s.exec.tips + r.tip) % W64))
      else t == s
  {
    hide ApplyTx, TxVerify;
    var s, tx := Select(cr, l, candidates[..i], slot, baseFee), candidates[i];
    assert candidates[..i + 1][..i] == candidates[..i];
    SelectIsShort(cr, l, candidates[..i], slot, baseFee);
    if ApplyTx(cr, s.exec.ledger, tx, slot, baseFee).1.Included? {
      IncludedKindKnown(cr, s.exec.ledger, tx, slot, baseFee);
    }
  }

  /** However many candidates there are, what is kept uses no more gas than the limit and one surcharge. */
  lemma {:induction false} SelectionNearLimit(cr: Crypto, l: Ledger, candidates: seq<Tx>, slot: U64, baseFee: U64)
    ensures Select(cr, l, candidates, slot, baseFee).exec.gas <= BLOCK_GAS_LIMIT + 50
  {
    hide ApplyTx, TxVerify;
    if candidates != [] {
      var init, tx := candidates[..|candidates| - 1], candidates[|candidates| - 1];
      SelectionNearLimit(cr, l, init, slot, baseFee);
      var s := Select(cr, l, init, slot, baseFee);
      if ApplyTx(cr, s.exec.ledger, tx, slot, baseFee).1.Included? {
        IncludedKindKnown(cr, s.exec.ledger, tx, slot, baseFee);
        SurchargeAtMost(cr, s.exec.ledger, tx, slot, baseFee);
      }
    }
  }

  /** The gas charged exceeds the gas announced by at most the surcharge for a new account. */
  lemma SurchargeAtMost(cr: Crypto, l: Ledger, tx: Tx, slot: U64, baseFee: U64)
    requires ApplyTx(cr, l, tx, slot, baseFee).1.Included?
    ensures ApplyTx(cr, l, tx, slot, baseFee).1.gas <= TotalGas(tx) + 50
  {
    hide ApplyTx;
    Admission.SucceedsIffRuns(cr, l, tx, slot, baseFee);
    Admission.IncludedIsCurrent(cr, l, tx, slot, baseFee);
    Admission.GasIsBase(tx);
  }

  /** What a leader builds: everything that executes, for the next height, stamped with the start of the slot. */
  lemma BuiltBlockIs(cr: Crypto, c: Chain, slot: U64, kp: KeyPair, candidates: seq<Tx>)
    requires c.blocks != [] && |candidates| <= BLOCK_MAX_TXS && |c.blocks| < W64
    ensures BuildBlock(cr, c, slot, kp, candidates).Some? <==> Get(c.ledger, kp.pk).stake >= 100_000_000
    ensures var b := BuildBlock(cr, c, slot, kp, candidates); b.Some? ==>
      && b.value.txs == Select(cr, c.ledger, candidates, slot, ExpectedBaseFee(c)).kept && b.value.signers == []
      && var h := b.value.header;
        && h.height == |c.blocks| && h.slot == slot && h.proposer == kp.pk && h.baseFee == ExpectedBaseFee(c)
        && h.timestampMs == (c.genesisMs + 2000 * slot) % W64 && h.parentHash == BlockHash(cr, Tip(c))
        && h.txCount == |b.value.txs| && h.gasLimit == 30_000_000
  {
    hide Select, StateRoot, TxRoot, PayLeader, SeedFor, BlockHash, ExpectedBaseFee, VrfProve;
    SelectIsShort(cr, c.ledger, candidates, slot, ExpectedBaseFee(c));
  }

  lemma IncludedKindKnown(cr: Crypto, l: Ledger, tx: Tx, slot: U64, baseFee: U64)
    requires ApplyTx(cr, l, tx, slot, baseFee).1.Included?
    ensures TotalGas(tx) <= 1033
  {
    hide Body;
    KindsAreKnown(l, tx, slot, baseFee);
  }

  /** Signatures made with this key verify under it. */
  ghost predicate SignsCorrectly(cr: Crypto, kp: KeyPair) {
    forall m: Bytes :: cr.verify(cr.sign(kp.sk, m), m, kp.pk)
  }

  lemma ExpectedFeeIsOne(cr: Crypto, g: Genesis, c: Chain)
    requires Grown(cr, g, c) && forall h :: 1 <= h < |c.blocks| ==> |c.blocks[h].txs| <= BLOCK_MAX_TXS
    ensures ExpectedBaseFee(c) == MIN_BASE_FEE
  {
    hide Grown, NextBaseFee;
    OneBlock(cr, g, c);
    var n := |c.blocks| - 1;
    BaseFeeStaysMinimal(cr, g, c, n);
    LowUsageFee(c.blocks[n].header.baseFee, c.blocks[n].header.gasUsed);
  }

  /** The body checks pass on a built block as soon as its certificate does. */
  lemma BuiltBodyPasses(cr: Crypto, c: Chain, slot: U64, kp: KeyPair, candidates: seq<Tx>, signers: seq<Signer>)
    requires c.blocks != [] && |c.blocks| < W64 && |candidates| <= BLOCK_MAX_TXS
    requires BuildBlock(cr, c, slot, kp, candidates).Some?
    requires var b := BuildBlock(cr, c, slot, kp, candidates).value.(signers := signers);
      CommitOk(cr, SeedFor(cr, c, slot), c.ledger, PostLedger(cr, c.ledger, b), c.live, Height(c), b)
    ensures BodyVerdict(cr, c, BuildBlock(cr, c, slot, kp, candidates).value.(signers := signers)) == Ok
  {
    hide CommitOk, ExecTxs, Select, StateRoot, TxRoot, PayLeader, SeedFor, BlockHash, ExpectedBaseFee, SlotTime,
      VrfProve;
    KeptExecutesAlike(cr, c.ledger, candidates, slot, ExpectedBaseFee(c));
    SelectIsShort(cr, c.ledger, candidates, slot, ExpectedBaseFee(c));
  }

  lemma BuiltHeaderPasses(cr: Crypto, c: Chain, slot: U64, kp: KeyPair, candidates: seq<Tx>, now: U64)
    requires c.blocks != [] && |c.blocks| < W64 && |candidates| <= BLOCK_MAX_TXS
    requires BuildBlock(cr, c, slot, kp, candidates).Some?
    requires SignsCorrectly(cr, kp) && ExpectedBaseFee(c) == MIN_BASE_FEE
    requires slot > Tip(c).slot && SlotTime(c, slot) <= (now + 1500) % W64
    ensures HeaderVerdict(cr, c, BuildBlock(cr, c, slot, kp, candidates).value.header, now) == Ok
  {
    hide ExecTxs, Select, StateRoot, TxRoot, PayLeader, SeedFor, BlockHash, ExpectedBaseFee, SlotTime;
    SelectIsShort(cr, c.ledger, candidates, slot, ExpectedBaseFee(c));
  }

  /**
   Proposer and validator agree: a block built on any reachable chain from at most 4096 candidates, for a
   later slot that is not early, is accepted at that tip once it carries a valid certificate.
   */
  lemma BuiltBlocksAreAccepted(
      cr: Crypto, g: Genesis, offers: seq<Offer>, slot: U64, kp: KeyPair, candidates: seq<Tx>, signers: seq<Signer>,
        now: U64)
    requires |candidates| <= BLOCK_MAX_TXS && SignsCorrectly(cr, kp)
    requires var c := Run(cr, g, offers);
      && |c.blocks| < W64 && slot > Tip(c).slot && SlotTime(c, slot) <= (now + 1500) % W64
      && (forall h :: 1 <= h < |c.blocks| ==> |c.blocks[h].txs| <= BLOCK_MAX_TXS)
      && BuildBlock(cr, c, slot, kp, candidates).Some?
      && var b := BuildBlock(cr, c, slot, kp, candidates).value.(signers := signers);
        CommitOk(cr, SeedFor(cr, c, slot), c.ledger, PostLedger(cr, c.ledger, b), c.live, Height(c), b)
    ensures var c := Run(cr, g, offers);
      BlockVerdict(cr, c, BuildBlock(cr, c, slot, kp, candidates).value.(signers := signers), now) == Ok
  {
    hide Run, Grown, CommitOk, BuildBlock, PostLedger, HeaderVerdict, BodyVerdict, SlotTime, SeedFor;
    var c := Run(cr, g, offers);
    RunIsReplay(cr, g, offers);
    ExpectedFeeIsOne(cr, g, c);
    BuiltBodyPasses(cr, c, slot, kp, candidates, signers);
    BuiltHeaderPasses(cr, c, slot, kp, candidates, now);
  }
}
