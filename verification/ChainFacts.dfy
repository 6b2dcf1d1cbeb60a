/** What every reachable chain satisfies: links, slots, fees and epoch seeds (src/chain.c:628-758, 973-1150). */
module ChainFacts {
  import opened Words
  import opened Types
  import opened Codec
  import opened Market
  import opened Ledgers
  import opened Quorum
  import opened Snapshots
  import opened Chains

  lemma OkHeader(cr: Crypto, c: Chain, b: Block, now: U64)
    requires c.blocks != [] && BlockVerdict(cr, c, b, now) == Ok
    ensures var h := b.header;
      && h.height == |c.blocks| && h.parentHash == BlockHash(cr, Tip(c)) && h.slot > Tip(c).slot
      && h.gasLimit == BLOCK_GAS_LIMIT && h.baseFee >= MIN_BASE_FEE
      && (h.baseFee + 1) % W64 >= ExpectedBaseFee(c) && h.baseFee <= (ExpectedBaseFee(c) + 1) % W64
      && LeaderOk(cr, c, h)
      && var x := ExecTxs(cr, c.ledger, b.txs, h.slot, h.baseFee); x.Some? && x.value.gas == h.gasUsed
  {
    hide HeaderVerdict, BodyVerdict, ExecTxs, BlockHash, ExpectedBaseFee, LeaderOk;
    OkHeaderFields(cr, c, b.header, now);
    OkHeaderFee(cr, c, b.header, now);
    OkBody(cr, c, b);
  }

  lemma OkHeaderFields(cr: Crypto, c: Chain, h: Header, now: U64)
    requires c.blocks != [] && HeaderVerdict(cr, c, h, now) == Ok
    ensures h.height == |c.blocks| && h.parentHash == BlockHash(cr, Tip(c)) && h.slot > Tip(c).slot
    ensures h.gasLimit == BLOCK_GAS_LIMIT && LeaderOk(cr, c, h)
  {
    hide BlockHash, SlotTime, ExpectedBaseFee, LeaderOk;
  }

  lemma OkHeaderFee(cr: Crypto, c: Chain, h: Header, now: U64)
    requires c.blocks != [] && HeaderVerdict(cr, c, h, now) == Ok
    ensures h.baseFee >= MIN_BASE_FEE
    ensures (h.baseFee + 1) % W64 >= ExpectedBaseFee(c) && h.baseFee <= (ExpectedBaseFee(c) + 1) % W64
  {
    hide BlockHash, SlotTime, ExpectedBaseFee, LeaderOk;
  }

  lemma OkBody(cr: Crypto, c: Chain, b: Block)
    requires c.blocks != [] && BodyVerdict(cr, c, b) == Ok
    ensures var x := ExecTxs(cr, c.ledger, b.txs, b.header.slot, b.header.baseFee);
      x.Some? && x.value.gas == b.header.gasUsed
  {
    hide CommitOk, ExecTxs, PostLedger, TxRoot, StateRoot;
  }

  /** What acceptance established about the header of height `h`. */
  lemma HeaderFacts(cr: Crypto, g: Genesis, c: Chain, h: nat)
    requires Grown(cr, g, c) && 1 <= h < |c.blocks|
    ensures var b, p := c.blocks[h].header, Replay(cr, g, c.blocks[..h]);
      && p.blocks == c.blocks[..h] && p.chainId == g.chainId && p.genesisMs == g.timestampMs
      && b.height == h && b.parentHash == BlockHash(cr, c.blocks[h - 1].header)
      && b.slot > c.blocks[h - 1].header.slot
      && b.gasLimit == BLOCK_GAS_LIMIT && b.baseFee >= MIN_BASE_FEE
      && (b.baseFee + 1) % W64 >= ExpectedBaseFee(p) && b.baseFee <= (ExpectedBaseFee(p) + 1) % W64
      && LeaderOk(cr, p, b)
      && var x := ExecTxs(cr, p.ledger, c.blocks[h].txs, b.slot, b.baseFee); x.Some? && x.value.gas == b.gasUsed
  {
    hide Replay, ExecTxs, BlockHash, BlockVerdict, ExpectedBaseFee, LeaderOk, GenesisBlock;
    GrownPrefix(cr, g, c, h);
    ReplayBlocks(cr, g, c.blocks[..h]);
    var p := Replay(cr, g, c.blocks[..h]);
    assert Accepted(cr, p, c.blocks[h]);
    var now: U64 :| BlockVerdict(cr, p, c.blocks[h], now) == Ok;
    OkHeader(cr, p, c.blocks[h], now);
  }

  /** Stored blocks are hash-linked, with consecutive heights and strictly rising slots. */
  lemma BlocksAreLinked(cr: Crypto, g: Genesis, offers: seq<Offer>)
    ensures var c := Run(cr, g, offers);
      && c.blocks[0].header.slot == 0 && c.blocks[0].header.height == 0
      && (forall h :: 1 <= h < |c.blocks| ==>
            && c.blocks[h].header.height == h
            && c.blocks[h].header.parentHash == BlockHash(cr, c.blocks[h - 1].header))
      && (forall h, k :: 0 <= h < k < |c.blocks| ==> c.blocks[h].header.slot < c.blocks[k].header.slot)
  {
    hide Run, Grown, BlockHash, Replay, ExpectedBaseFee, LeaderOk, ExecTxs, GenesisBlock;
    var c := Run(cr, g, offers);
    RunIsReplay(cr, g, offers);
    GrownPrefix(cr, g, c, 1) by { OneBlock(cr, g, c); }
    GenesisHeader(cr, g);
    forall h | 1 <= h < |c.blocks|
      ensures c.blocks[h].header.height == h && c.blocks[h].header.parentHash == BlockHash(cr, c.blocks[h - 1].header)
    {
      HeaderFacts(cr, g, c, h);
    }
    forall h, k | 0 <= h < k < |c.blocks| ensures c.blocks[h].header.slot < c.blocks[k].header.slot {
      SlotsRise(cr, g, c, h, k);
    }
  }

  lemma OneBlock(cr: Crypto, g: Genesis, c: Chain)
    requires Grown(cr, g, c)
    ensures |c.blocks| >= 1
  {
  }

  lemma GenesisHeader(cr: Crypto, g: Genesis)
    ensures var h := GenesisBlock(cr, g).header;
      h.slot == 0 && h.height == 0 && h.baseFee == MIN_BASE_FEE && h.gasUsed == 0 && h.gasLimit == BLOCK_GAS_LIMIT
  {
  }

  lemma {:induction false} SlotsRise(cr: Crypto, g: Genesis, c: Chain, h: nat, k: nat)
    requires Grown(cr, g, c) && h < k < |c.blocks|
    ensures c.blocks[h].header.slot < c.blocks[k].header.slot
  {
    hide Grown, BlockHash, Replay, ExpectedBaseFee, LeaderOk, ExecTxs;
    HeaderFacts(cr, g, c, k);
    if h < k - 1 {
      SlotsRise(cr, g, c, h, k - 1);
    }
  }

  // ---------------------------------------------------------------------------
  // Base fee
  // ---------------------------------------------------------------------------

  lemma {:induction false} ExecGasBound(cr: Crypto, l: Ledger, txs: seq<Tx>, slot: U64, baseFee: U64)
    requires ExecTxs(cr, l, txs, slot, baseFee).Some?
    ensures ExecTxs(cr, l, txs, slot, baseFee).value.gas <= 1033 * |txs|
    ensures ExecTxs(cr, l, txs, slot, baseFee).value.gas <= BLOCK_GAS_LIMIT
  {
    hide ApplyTx;
    if txs != [] {
      var init := txs[..|txs| - 1];
      ExecGasBound(cr, l, init, slot, baseFee);
      GasBound(cr, ExecTxs(cr, l, init, slot, baseFee).value.ledger, txs[|txs| - 1], slot, baseFee);
    }
  }

  /**
   Over every run the base fee steps by at most one eighth, or one unit, plus the one-unit tolerance,
   from every fee that reads as a positive signed word.
   */
  lemma FeeStepOverRuns(cr: Crypto, g: Genesis, c: Chain, h: nat)
    requires Grown(cr, g, c) && 2 <= h < |c.blocks|
    requires c.blocks[h - 1].header.baseFee < W64 / 2
    ensures var fee, before := c.blocks[h].header.baseFee, c.blocks[h - 1].header.baseFee;
      && fee >= MIN_BASE_FEE
      && before - EighthOrOne(before) - 1 <= fee <= before + EighthOrOne(before) + 1
  {
    hide Grown, BlockHash, Replay, LeaderOk, ExecTxs, NextBaseFee, EighthOrOne;
    HeaderFacts(cr, g, c, h);
    HeaderFacts(cr, g, c, h - 1);
    var prev := c.blocks[h - 1];
    var p := Replay(cr, g, c.blocks[..h - 1]);
    ExecGasBound(cr, p.ledger, prev.txs, prev.header.slot, prev.header.baseFee);
    FeeStepIsBounded(prev.header.baseFee, prev.header.gasUsed, prev.header.gasLimit);
    assert EighthOrOne(prev.header.baseFee) <= prev.header.baseFee + 1 by { EighthIsSmall(prev.header.baseFee); }
    assert Tip(Replay(cr, g, c.blocks[..h])) == prev.header;
  }

  lemma EighthIsSmall(fee: nat)
    ensures EighthOrOne(fee) <= fee + 1
  {
  }

  /**
   A block of at most 4096 transactions uses at most 4096 * 1033 gas, far below both the limit and the
   target: the limit is never reached, and the base fee is one or two for ever.
   */
  lemma {:induction false} BaseFeeStaysMinimal(cr: Crypto, g: Genesis, c: Chain, h: nat)
    requires Grown(cr, g, c) && h < |c.blocks|
    requires forall k :: 1 <= k <= h ==> |c.blocks[k].txs| <= BLOCK_MAX_TXS
    ensures 1 <= c.blocks[h].header.baseFee <= 2 && c.blocks[h].header.gasUsed <= BLOCK_MAX_TXS * 1033
    ensures c.blocks[h].header.gasUsed < BLOCK_GAS_LIMIT / 2 && c.blocks[h].header.gasLimit == BLOCK_GAS_LIMIT
  {
    hide Grown, BlockHash, Replay, LeaderOk, ExecTxs, NextBaseFee, GenesisBlock;
    if h == 0 {
      GrownPrefix(cr, g, c, 1);
      GenesisHeader(cr, g);
    } else {
      BaseFeeStaysMinimal(cr, g, c, h - 1);
      HeaderFacts(cr, g, c, h);
      var p, b, prev := Replay(cr, g, c.blocks[..h]), c.blocks[h], c.blocks[h - 1].header;
      ExecGasBound(cr, p.ledger, b.txs, b.header.slot, b.header.baseFee);
      LowUsageFee(prev.baseFee, prev.gasUsed);
      assert Tip(p) == prev;
    }
  }

  // ---------------------------------------------------------------------------
  // Epoch seeds
  // ---------------------------------------------------------------------------

  lemma {:induction false} LaterBlocksDoNotMatter(blocks: seq<Block>, n: nat, start: nat)
    requires 1 <= n <= |blocks|
    requires forall k :: n <= k < |blocks| ==> blocks[k].header.slot >= start
    ensures LastBefore(blocks, start) == LastBefore(blocks[..n], start)
    decreases |blocks|
  {
    if n < |blocks| {
      var init := blocks[..|blocks| - 1];
      LaterBlocksDoNotMatter(init, n, start);
      assert init[..n] == blocks[..n];
    } else {
      assert blocks[..n] == blocks;
    }
  }

  lemma EpochStarts(slot: U64)
    ensures (Epoch(slot) * EPOCH_SLOTS) % W64 == Epoch(slot) * EPOCH_SLOTS <= slot
  {
  }

  /** Extending a chain with blocks of the epoch or later never changes the epoch's seed. */
  lemma SeedIsFixedBefore(cr: Crypto, chainId: U64, genesisMs: U64, blocks: seq<Block>, n: nat, slot: U64)
    requires 1 <= n <= |blocks| && blocks[0].header.slot == 0
    requires forall k :: n <= k < |blocks| ==> blocks[k].header.slot >= Epoch(slot) * EPOCH_SLOTS
    ensures EpochSeed(cr, chainId, genesisMs, blocks, Epoch(slot)) ==
            EpochSeed(cr, chainId, genesisMs, blocks[..n], Epoch(slot))
  {
    hide LastBefore;
    EpochStarts(slot);
    LaterBlocksDoNotMatter(blocks, n, Epoch(slot) * EPOCH_SLOTS);
  }

  /**
   Every block of a reachable chain was validated under the seed that the whole chain assigns to its
   epoch: blocks of one epoch share one seed, fixed before the epoch began.
   */
  lemma OneSeedPerEpoch(cr: Crypto, g: Genesis, c: Chain, h: nat)
    requires Grown(cr, g, c) && 1 <= h < |c.blocks|
    ensures var slot := c.blocks[h].header.slot;
      SeedFor(cr, Replay(cr, g, c.blocks[..h]), slot) == SeedFor(cr, c, slot)
  {
    hide Grown, Replay, EpochSeed, ExecTxs, LeaderOk, BlockHash, ExpectedBaseFee, GenesisBlock;
    var slot := c.blocks[h].header.slot;
    HeaderFacts(cr, g, c, h);
    GrownPrefix(cr, g, c, h);
    GenesisHeader(cr, g);
    EpochStarts(slot);
    forall k | h <= k < |c.blocks| ensures c.blocks[k].header.slot >= Epoch(slot) * EPOCH_SLOTS {
      if h < k {
        SlotsRise(cr, g, c, h, k);
      }
    }
    SeedIsFixedBefore(cr, g.chainId, g.timestampMs, c.blocks, h, slot);
  }

  /** `k` is the height of the last block before the epoch. */
  predicate LastOfEarlier(blocks: seq<Block>, start: nat, k: nat) {
    && k < |blocks| && blocks[k].header.slot < start
    && forall j :: k < j < |blocks| ==> blocks[j].header.slot >= start
  }

  /** The seed of a later epoch is the hash of the proof in the last block before that epoch. */
  lemma SeedOfEpoch(cr: Crypto, chainId: U64, genesisMs: U64, blocks: seq<Block>, slot: U64, k: nat)
    requires Epoch(slot) >= 1 && LastOfEarlier(blocks, Epoch(slot) * EPOCH_SLOTS, k)
    requires blocks[0].header.slot == 0
    ensures EpochSeed(cr, chainId, genesisMs, blocks, Epoch(slot)) ==
            cr.hash(Ascii("AGCH:SEED") + blocks[k].header.vrfProof)
  {
    EpochStarts(slot);
    LaterBlocksDoNotMatter(blocks, k + 1, Epoch(slot) * EPOCH_SLOTS);
    assert blocks[..k + 1][k] == blocks[k];
  }

  // ---------------------------------------------------------------------------
  // The ledger stays well formed
  // ---------------------------------------------------------------------------

  lemma {:induction false} ExecKeepsValid(cr: Crypto, l: Ledger, txs: seq<Tx>, slot: U64, baseFee: U64)
    requires Valid(l)
    ensures var x := ExecTxs(cr, l, txs, slot, baseFee); x.Some? ==> Valid(x.value.ledger)
  {
    hide ApplyTx, Valid, TxVerify;
    if txs != [] {
      ExecKeepsValid(cr, l, txs[..|txs| - 1], slot, baseFee);
      var x := ExecTxs(cr, l, txs[..|txs| - 1], slot, baseFee);
      if x.Some? {
        ApplyKeepsValid(cr, x.value.ledger, txs[|txs| - 1], slot, baseFee);
      }
    }
  }

  lemma PayKeepsValid(l: Ledger, proposer: Addr, height: nat, tips: U64)
    requires Valid(l)
    ensures Valid(PayLeader(l, proposer, height, tips))
  {
    hide Valid, Set, BlockReward;
    var reward, h := BlockReward(height), Get(l, proposer);
    SetKeepsValid(l, proposer, h.(balance := (h.balance + (reward + tips) % W64) % W64));
    var m := Credit(l, proposer, (reward + tips) % W64);
    var p := Get(m, REWARD_POOL);
    SetKeepsValid(m, REWARD_POOL, p.(balance := if reward > p.balance then 0 else p.balance - reward));
  }

  lemma {:induction false} GenesisIsValid(g: Genesis, n: nat)
    requires n <= |g.accounts|
    ensures Valid(GenesisLedger(g, n))
  {
    hide Set;
    if n == 0 {
      SetKeepsValid(Ledger(g.chainId, map[], map[]), REWARD_POOL, Holdings(POOL_SEED, 0, 0, 0));
    } else {
      GenesisIsValid(g, n - 1);
      var a := g.accounts[n - 1];
      SetKeepsValid(GenesisLedger(g, n - 1), a.addr, Holdings(a.balance, 0, a.stake, 0));
    }
  }

  /** Over every run no empty account and no invalid name is stored. */
  lemma {:induction false} LedgerStaysValid(cr: Crypto, g: Genesis, blocks: seq<Block>)
    ensures Valid(Replay(cr, g, blocks).ledger)
  {
    hide Valid, GenesisLedger, ExecTxs, PayLeader, Entries, RecordSigners;
    if |blocks| <= 1 {
      GenesisIsValid(g, |g.accounts|);
    } else {
      var p, b := Replay(cr, g, blocks[..|blocks| - 1]), blocks[|blocks| - 1];
      LedgerStaysValid(cr, g, blocks[..|blocks| - 1]);
      ExecKeepsValid(cr, p.ledger, b.txs, b.header.slot, b.header.baseFee);
      var x := ExecTxs(cr, p.ledger, b.txs, b.header.slot, b.header.baseFee);
      if x.Some? {
        PayKeepsValid(x.value.ledger, b.header.proposer, b.header.height, x.value.tips);
      }
    }
  }
}
