/**
 The reward pool over whole runs (src/chain.c:433-446, 729-737, 1082-1085; src/state.c:128-141).
 */
module RewardPool {
  import opened Words
  import opened Types
  import opened Codec
  import opened Market
  import opened Ledgers
  import opened Effects
  import opened Conservation
  import opened Chains
  import opened ChainFacts
  import opened Emission

  function Pool(l: Ledger): Holdings {
    Get(l, REWARD_POOL)
  }

  // ---------------------------------------------------------------------------
  // One transaction
  // ---------------------------------------------------------------------------

  /** A transfer to the pool does not wrap its balance. */
  predicate CreditFits(l: Ledger, tx: Tx) {
    ToPool(tx) ==> Pool(l).balance + ParseTransfer(tx.body).value.amount < W64
  }

  predicate ToPool(tx: Tx) {
    tx.kind == TRANSFER && ParseTransfer(tx.body).Some? && ParseTransfer(tx.body).value.recipient == REWARD_POOL
  }

  /** The pool after somebody else's transaction: credited by transfers, stripped of stake by slashing. */
  lemma PoolAfter(cr: Crypto, l: Ledger, tx: Tx, slot: U64, baseFee: U64)
    requires tx.sender != REWARD_POOL && ApplyTx(cr, l, tx, slot, baseFee).1.Included?
    ensures var (after, r) := ApplyTx(cr, l, tx, slot, baseFee); var p, q := Pool(l), Pool(after);
      && (p.stake == 0 ==> q.stake == 0)
      && q.balance ==
        if ToPool(tx) && r.fault.None? then (p.balance + ParseTransfer(tx.body).value.amount) % W64 else p.balance
  {
    hide ApplyTx, ParseTransfer, ParseSlash, ParseStake, ParseName, PerGas, Fee, DoubleVote, Get, Precheck;
    var r := ApplyTx(cr, l, tx, slot, baseFee).1;
    KindOf(cr, l, tx, slot, baseFee);
    if r.fault.Some? {
      FailedLeavesPool(cr, l, tx, slot, baseFee);
    } else if tx.kind == TRANSFER {
      TransferMoves(cr, l, tx, slot, baseFee, REWARD_POOL);
    } else if tx.kind == STAKE_BOND || tx.kind == STAKE_UNBOND {
      StakeMoves(cr, l, tx, slot, baseFee, REWARD_POOL);
    } else if tx.kind == REGISTER_NAME {
      RegisterOwns(cr, l, tx, slot, baseFee, REWARD_POOL);
    } else {
      SlashTouches(cr, l, tx, slot, baseFee, REWARD_POOL);
    }
  }

  lemma KindOf(cr: Crypto, l: Ledger, tx: Tx, slot: U64, baseFee: U64)
    requires ApplyTx(cr, l, tx, slot, baseFee).1.Included?
    ensures tx.kind == TRANSFER || tx.kind == STAKE_BOND || tx.kind == STAKE_UNBOND || tx.kind == REGISTER_NAME
      || tx.kind == SLASH_EVIDENCE
  {
    hide Body;
    AfterBody(cr, l, tx, slot, baseFee);
    PrecheckFacts(l, tx, slot, baseFee);
  }

  /** A transfer to the stored pool never runs out of gas, so a failed body did not pay the pool. */
  lemma FailedLeavesPool(cr: Crypto, l: Ledger, tx: Tx, slot: U64, baseFee: U64)
    requires tx.sender != REWARD_POOL && ApplyTx(cr, l, tx, slot, baseFee).1.Included?
    requires ApplyTx(cr, l, tx, slot, baseFee).1.fault.Some?
    ensures Pool(ApplyTx(cr, l, tx, slot, baseFee).0) == Pool(l)
    ensures ToPool(tx) ==> REWARD_POOL !in l.accounts
  {
    hide Fee, PerGas, ParseTransfer, ParseSlash, ParseStake, ParseName, DoubleVote;
    FailedBodyCostsOnlyFees(cr, l, tx, slot, baseFee);
  }

  /** Somebody else's transaction lowers the pool's balance if and only if it wraps it. */
  lemma PoolKeptIffCreditFits(cr: Crypto, l: Ledger, tx: Tx, slot: U64, baseFee: U64)
    requires tx.sender != REWARD_POOL && ApplyTx(cr, l, tx, slot, baseFee).1.Included?
    ensures Pool(ApplyTx(cr, l, tx, slot, baseFee).0).balance >= Pool(l).balance <==> CreditFits(l, tx)
  {
    hide ApplyTx, ParseTransfer;
    PoolAfter(cr, l, tx, slot, baseFee);
    if ApplyTx(cr, l, tx, slot, baseFee).1.fault.Some? {
      FailedLeavesPool(cr, l, tx, slot, baseFee);
    }
  }

  /**
   The guard is needed: a sender that got hold of enough, for example through a wrapped price, can pay
   the pool until its balance wraps to zero.
   */
  lemma PoolCanWrap(cr: Crypto, a: Addr)
    requires a != REWARD_POOL
    ensures var l := Ledger(7, map[a := Holdings(W64 - 1, 0, 0, 0), REWARD_POOL := Holdings(POOL_SEED, 0, 0, 0)],
      map[]);
      var tx := Sample(TRANSFER, a, 0, TransferBytes(TransferBody(REWARD_POOL, W64 - POOL_SEED)));
      && Precheck(l, tx, 0, 1).None?
      && Get(ApplyTx(cr, l, tx, 0, 1).0, REWARD_POOL).balance == 0
  {
    hide TransferBytes, ParseTransfer;
    var b := TransferBody(REWARD_POOL, W64 - POOL_SEED);
    assert |TransferBytes(b)| == 40 by { TransferLength(b); }
    TransferRoundTrip(b);
    var l := Ledger(7, map[a := Holdings(W64 - 1, 0, 0, 0), REWARD_POOL := Holdings(POOL_SEED, 0, 0, 0)], map[]);
    var tx := Sample(TRANSFER, a, 0, TransferBytes(b));
    assert Precheck(l, tx, 0, 1).None?;
    var e := Body(cr, l, tx, 0, 1);
    assert Get(e.ledger, REWARD_POOL).balance == 0;
  }

  lemma TransferLength(b: TransferBody)
    ensures |TransferBytes(b)| == 40
  {
  }

  // ---------------------------------------------------------------------------
  // Blocks
  // ---------------------------------------------------------------------------

  /** Nothing is sent from the pool and no transfer wraps it. */
  ghost predicate AllSpare(cr: Crypto, l: Ledger, txs: seq<Tx>, slot: U64, baseFee: U64) {
    txs == [] ||
    (var init, tx := txs[..|txs| - 1], txs[|txs| - 1];
     var x := ExecTxs(cr, l, init, slot, baseFee);
     x.Some? && AllSpare(cr, l, init, slot, baseFee) && tx.sender != REWARD_POOL && CreditFits(x.value.ledger, tx))
  }

  lemma {:induction false} ExecSpares(cr: Crypto, l: Ledger, txs: seq<Tx>, slot: U64, baseFee: U64)
    requires ExecTxs(cr, l, txs, slot, baseFee).Some? && AllSpare(cr, l, txs, slot, baseFee) && Pool(l).stake == 0
    ensures var m := ExecTxs(cr, l, txs, slot, baseFee).value.ledger;
      Pool(m).balance >= Pool(l).balance && Pool(m).stake == 0
  {
    hide ApplyTx, TxVerify, CreditFits, Pool;
    if txs != [] {
      var init, tx := txs[..|txs| - 1], txs[|txs| - 1];
      ExecSpares(cr, l, init, slot, baseFee);
      var x := ExecTxs(cr, l, init, slot, baseFee).value;
      PoolKeptIffCreditFits(cr, x.ledger, tx, slot, baseFee);
      PoolAfter(cr, x.ledger, tx, slot, baseFee);
    }
  }

  /** A leader other than the pool costs the pool exactly the reward. */
  lemma PayLeaderTakesReward(l: Ledger, proposer: Addr, height: nat, tips: U64)
    requires proposer != REWARD_POOL && Pool(l).balance >= BlockReward(height)
    ensures PoolCovers(l, proposer, height, tips)
    ensures Pool(PayLeader(l, proposer, height, tips)) == Pool(l).(balance := Pool(l).balance - BlockReward(height))
  {
    hide BlockReward, Set;
    var reward, h := BlockReward(height), Get(l, proposer);
    var raised := h.(balance := (h.balance + (reward + tips) % W64) % W64);
    SetGet(l, proposer, raised, REWARD_POOL);
    var m := Set(l, proposer, raised);
    SetGet(m, REWARD_POOL, Pool(m).(balance := Pool(m).balance - reward), REWARD_POOL);
  }

  lemma BlockSpares(cr: Crypto, l: Ledger, b: Block)
    requires ExecTxs(cr, l, b.txs, b.header.slot, b.header.baseFee).Some?
    requires AllSpare(cr, l, b.txs, b.header.slot, b.header.baseFee)
    requires Pool(l).stake == 0 && Pool(l).balance >= BlockReward(b.header.height) && b.header.proposer != REWARD_POOL
    ensures var x := ExecTxs(cr, l, b.txs, b.header.slot, b.header.baseFee).value; var q := Pool(PostLedger(cr, l, b));
      && PoolCovers(x.ledger, b.header.proposer, b.header.height, x.tips)
      && q.balance + BlockReward(b.header.height) >= Pool(l).balance && q.stake == 0
  {
    hide ExecTxs, AllSpare, PayLeader, PoolCovers, Pool, BlockReward;
    ExecSpares(cr, l, b.txs, b.header.slot, b.header.baseFee);
    var x := ExecTxs(cr, l, b.txs, b.header.slot, b.header.baseFee).value;
    PayLeaderTakesReward(x.ledger, b.header.proposer, b.header.height, x.tips);
  }

  // ---------------------------------------------------------------------------
  // Runs
  // ---------------------------------------------------------------------------

  /** The genesis list does not name the pool. */
  predicate PoolUntouched(g: Genesis) {
    forall i :: 0 <= i < |g.accounts| ==> g.accounts[i].addr != REWARD_POOL
  }

  lemma {:induction false} GenesisPool(g: Genesis, n: nat)
    requires n <= |g.accounts| && PoolUntouched(g)
    ensures Pool(GenesisLedger(g, n)) == Holdings(POOL_SEED, 0, 0, 0)
  {
    if n > 0 {
      GenesisPool(g, n - 1);
    }
  }

  /** No block up to height `n` spends from the pool or wraps it. */
  ghost predicate SpareRun(cr: Crypto, g: Genesis, c: Chain, n: nat)
    requires n < |c.blocks|
  {
    forall h :: 1 <= h <= n ==>
      AllSpare(cr, LedgerBelow(cr, g, c, h), c.blocks[h].txs, c.blocks[h].header.slot, c.blocks[h].header.baseFee)
  }

  lemma RewardSumStep(n: nat)
    ensures RewardSum(0) == 0
    ensures n > 0 ==> RewardSum(n) == RewardSum(n - 1) + BlockReward(n)
  {
  }

  lemma BlockFacts(cr: Crypto, g: Genesis, c: Chain, h: nat)
    requires Grown(cr, g, c) && 1 <= h < |c.blocks|
    ensures var b := c.blocks[h]; var l := LedgerBelow(cr, g, c, h);
      && b.header.height == h && ExecTxs(cr, l, b.txs, b.header.slot, b.header.baseFee).Some?
      && LedgerBelow(cr, g, c, h + 1) == PostLedger(cr, l, b)
      && Get(l, b.header.proposer).stake >= MIN_STAKE
  {
    hide Grown, ExecTxs, PostLedger, ExpectedBaseFee, BlockHash, Replay, VrfVerify, SeedFor, Get;
    HeaderFacts(cr, g, c, h);
    ReplayStep(cr, g, c.blocks, h);
  }

  lemma ReplayStep(cr: Crypto, g: Genesis, blocks: seq<Block>, h: nat)
    requires 1 <= h < |blocks|
    ensures Replay(cr, g, blocks[..h + 1]).ledger == PostLedger(cr, Replay(cr, g, blocks[..h]).ledger, blocks[h])
  {
    hide PostLedger, Entries, GenesisChain;
    assert blocks[..h + 1][..h] == blocks[..h];
  }

  /**
   Up to height 1.4 billion the pool holds at least its seed minus all rewards paid, through both
   emission phases, and never has stake.
   */
  lemma {:induction false} PoolOutlivesEmission(cr: Crypto, g: Genesis, c: Chain, n: nat)
    requires Grown(cr, g, c) && PoolUntouched(g) && n < |c.blocks| && n <= 1_400_000_000 && SpareRun(cr, g, c, n)
    ensures var p := Pool(LedgerBelow(cr, g, c, n + 1)); p.balance + RewardSum(n) >= POOL_SEED && p.stake == 0
  {
    hide GenesisLedger, AllSpare, ExecTxs, Get, Grown, RewardSum, PostLedger, PoolCovers, BlockReward, Extend;
    if n == 0 {
      GenesisPool(g, |g.accounts|);
      assert |c.blocks[..1]| == 1;
      RewardSumStep(0);
    } else {
      PoolOutlivesEmission(cr, g, c, n - 1);
      BlockFacts(cr, g, c, n);
      RewardSumStep(n);
      SeedCoversEmission(n);
      BlockSpares(cr, LedgerBelow(cr, g, c, n), c.blocks[n]);
    }
  }

  /** The reward debit of every block up to height 1.4 billion is paid in full. */
  lemma DebitNeverClamps(cr: Crypto, g: Genesis, c: Chain, n: nat)
    requires Grown(cr, g, c) && PoolUntouched(g) && 1 <= n < |c.blocks| && n <= 1_400_000_000 && SpareRun(cr, g, c, n)
    ensures var b := c.blocks[n]; var x := ExecTxs(cr, LedgerBelow(cr, g, c, n), b.txs, b.header.slot,
      b.header.baseFee);
      x.Some? && PoolCovers(x.value.ledger, b.header.proposer, n, x.value.tips)
  {
    hide GenesisLedger, AllSpare, ExecTxs, Get, Grown, RewardSum, PostLedger, PoolCovers, BlockReward, LedgerBelow;
    PoolOutlivesEmission(cr, g, c, n - 1);
    BlockFacts(cr, g, c, n);
    RewardSumStep(n);
    SeedCoversEmission(n);
    BlockSpares(cr, LedgerBelow(cr, g, c, n), c.blocks[n]);
  }

  // ---------------------------------------------------------------------------
  // Supply
  // ---------------------------------------------------------------------------

  /** Nobody slashes itself and every fee is covered. */
  ghost predicate Frugal(cr: Crypto, l: Ledger, tx: Tx, slot: U64, baseFee: U64) {
    && Precheck(l, tx, slot, baseFee).None?
    && !SelfSlash(tx, Body(cr, l, tx, slot, baseFee)) && FeesCovered(tx, Body(cr, l, tx, slot, baseFee), baseFee)
  }

  ghost predicate AllFrugal(cr: Crypto, l: Ledger, txs: seq<Tx>, slot: U64, baseFee: U64) {
    txs == [] ||
    (var init := txs[..|txs| - 1];
     var x := ExecTxs(cr, l, init, slot, baseFee);
     x.Some? && AllFrugal(cr, l, init, slot, baseFee) && Frugal(cr, x.value.ledger, txs[|txs| - 1], slot, baseFee))
  }

  lemma {:induction false} ExecFrugal(cr: Crypto, l: Ledger, txs: seq<Tx>, slot: U64, baseFee: U64)
    requires ExecTxs(cr, l, txs, slot, baseFee).Some? && Supply(l) < W64
    requires AllFrugal(cr, l, txs, slot, baseFee)
    ensures var x := ExecTxs(cr, l, txs, slot, baseFee).value; Supply(x.ledger) + x.tips <= Supply(l)
  {
    hide Supply, Precheck, Body, FeesCovered, SelfSlash, ApplyTx, TxVerify;
    if txs != [] {
      var init, tx := txs[..|txs| - 1], txs[|txs| - 1];
      ExecFrugal(cr, l, init, slot, baseFee);
      var x := ExecTxs(cr, l, init, slot, baseFee).value;
      SupplyFalls(cr, x.ledger, tx, slot, baseFee);
      assert Supply(ApplyTx(cr, x.ledger, tx, slot, baseFee).0) + ApplyTx(cr, x.ledger, tx, slot, baseFee).1.tip <=
        Supply(x.ledger);
    }
  }

  ghost predicate FrugalRun(cr: Crypto, g: Genesis, c: Chain, n: nat)
    requires n < |c.blocks|
  {
    forall h :: 1 <= h <= n ==>
      AllFrugal(cr, LedgerBelow(cr, g, c, h), c.blocks[h].txs, c.blocks[h].header.slot, c.blocks[h].header.baseFee)
  }

  /** With covered fees, no self-slash and a spared pool, the supply never exceeds the genesis supply. */
  lemma {:induction false} SupplyNeverExceedsGenesis(cr: Crypto, g: Genesis, c: Chain, n: nat)
    requires Grown(cr, g, c) && PoolUntouched(g) && n < |c.blocks| && n <= 1_400_000_000
    requires SpareRun(cr, g, c, n) && FrugalRun(cr, g, c, n)
    requires Supply(GenesisLedger(g, |g.accounts|)) + MAX_REWARD < W64
    ensures Supply(LedgerBelow(cr, g, c, n + 1)) <= Supply(GenesisLedger(g, |g.accounts|))
  {
    hide Supply, GenesisLedger, AllSpare, AllFrugal, ExecTxs, Get, Grown, PayLeader, PoolCovers, BlockReward, Extend;
    if n == 0 {
      assert |c.blocks[..1]| == 1;
    } else {
      SupplyNeverExceedsGenesis(cr, g, c, n - 1);
      BlockFacts(cr, g, c, n);
      DebitNeverClamps(cr, g, c, n);
      var b, l := c.blocks[n], LedgerBelow(cr, g, c, n);
      ExecFrugal(cr, l, b.txs, b.header.slot, b.header.baseFee);
      var x := ExecTxs(cr, l, b.txs, b.header.slot, b.header.baseFee).value;
      PayLeaderSupply(x.ledger, b.header.proposer, n, x.tips);
    }
  }
}
