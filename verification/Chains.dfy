/**
 The chain as a value: genesis, execution, block verdicts, block construction and runs
 (src/chain.c:423-497, 628-684, 861-1270).

 ChainStore.dfy holds the stateful machine that refines these functions.
 */
module Chains {
  import opened Words
  import opened Types
  import opened Codec
  import opened Market
  import opened Ledgers
  import opened Snapshots
  import opened Quorum

  /** One row of the transaction index: where a transaction was committed. */
  datatype TxEntry = TxEntry(hash: Hash, height: nat, index: nat)

  /** `blocks[h]` is the stored block of height `h`. */
  datatype Chain = Chain(
    chainId: U64, genesisMs: U64, blocks: seq<Block>, ledger: Ledger, live: seq<LiveEntry>, index: seq<TxEntry>)

  function Height(c: Chain): nat
    requires c.blocks != []
  {
    |c.blocks| - 1
  }

  function Tip(c: Chain): Header
    requires c.blocks != []
  {
    c.blocks[|c.blocks| - 1].header
  }

  // ---------------------------------------------------------------------------
  // Epoch seeds
  // ---------------------------------------------------------------------------

  function Epoch(slot: U64): nat {
    slot / EPOCH_SLOTS
  }

  function GenesisSeed(cr: Crypto, chainId: U64, genesisMs: U64): Hash {
    cr.hash(Ascii("AGCH:GENESIS:v1") + (Be64(chainId) + Be64(genesisMs)))
  }

  /** The height of the last block with a slot below `start`, scanning down; 0 if none above genesis. */
  function LastBefore(blocks: seq<Block>, start: nat): (h: nat)
    ensures h == 0 || h < |blocks|
  {
    if |blocks| <= 1 then 0
    else if blocks[|blocks| - 1].header.slot < start then |blocks| - 1
    else LastBefore(blocks[..|blocks| - 1], start)
  }

  function EpochSeed(cr: Crypto, chainId: U64, genesisMs: U64, blocks: seq<Block>, epoch: nat): Hash
    requires blocks != []
  {
    var start := (epoch * EPOCH_SLOTS) % W64;
    var h := LastBefore(blocks, start);
    if epoch == 0 || (h == 0 && |blocks| > 1 && blocks[0].header.slot >= start)
    then GenesisSeed(cr, chainId, genesisMs)
    else cr.hash(Ascii("AGCH:SEED") + blocks[h].header.vrfProof)
  }

  function SeedFor(cr: Crypto, c: Chain, slot: U64): Hash
    requires c.blocks != []
  {
    EpochSeed(cr, c.chainId, c.genesisMs, c.blocks, Epoch(slot))
  }

  // ---------------------------------------------------------------------------
  // Execution
  // ---------------------------------------------------------------------------

  datatype Exec = Exec(ledger: Ledger, gas: nat, tips: U64)

  function ExecTx(cr: Crypto, x: Exec, tx: Tx, slot: U64, baseFee: U64): Option<Exec> {
    var (after, r) := ApplyTx(cr, x.ledger, tx, slot, baseFee);
    if !TxVerify(cr, tx) || r.Rejected? || x.gas + r.gas > BLOCK_GAS_LIMIT then None
    else Some(Exec(after, x.gas + r.gas, (x.tips + r.tip) % W64))
  }

  /** All transactions in order; one that is rejected fails the block. */
  function ExecTxs(cr: Crypto, l: Ledger, txs: seq<Tx>, slot: U64, baseFee: U64): Option<Exec> {
    if txs == [] then Some(Exec(l, 0, 0))
    else
      match ExecTxs(cr, l, txs[..|txs| - 1], slot, baseFee)
      case None => None
      case Some(x) => ExecTx(cr, x, txs[|txs| - 1], slot, baseFee)
  }

  /** Reward and tips go to the leader, the reward comes out of the pool (src/chain.c:1082-1085). */
  function PayLeader(l: Ledger, proposer: Addr, height: nat, tips: U64): Ledger {
    var reward := BlockReward(height);
    Debit(Credit(l, proposer, (reward + tips) % W64), REWARD_POOL, reward)
  }

  /** The ledger after a block whose transactions all execute. */
  function PostLedger(cr: Crypto, l: Ledger, b: Block): Ledger {
    match ExecTxs(cr, l, b.txs, b.header.slot, b.header.baseFee)
    case None => l
    case Some(x) => PayLeader(x.ledger, b.header.proposer, b.header.height, x.tips)
  }

  // ---------------------------------------------------------------------------
  // Verdicts
  // ---------------------------------------------------------------------------

  datatype Verdict =
    | Ok | Dup | BadHeader | BadParent | BadTime | BadProposer | BadTx | BadStateRoot | BadCommit | BadGas | Future

  function SlotTime(c: Chain, slot: U64): U64 {
    (c.genesisMs + slot * SLOT_MS) % W64
  }

  function ExpectedBaseFee(c: Chain): U64
    requires c.blocks != []
  {
    var tip := Tip(c);
    if Height(c) == 0 then MIN_BASE_FEE
    else if tip.gasLimit < 2 then tip.baseFee
    else NextBaseFee(tip.baseFee, tip.gasUsed, tip.gasLimit)
  }

  predicate LeaderOk(cr: Crypto, c: Chain, h: Header)
    requires c.blocks != []
  {
    && Get(c.ledger, h.proposer).stake >= MIN_STAKE
    && VrfVerify(cr, h.vrfProof, LeaderAlpha(SeedFor(cr, c, h.slot), h.slot), h.proposer)
  }

  /** The checks made before anything is executed, in order (src/chain.c:974-1030). */
  function HeaderVerdict(cr: Crypto, c: Chain, h: Header, now: U64): Verdict
    requires c.blocks != []
  {
    var start := Signed(SlotTime(c, h.slot));
    var expected := ExpectedBaseFee(c);
    if h.version != BLOCK_VERSION then BadHeader
    else if h.height == 0 then Dup
    else if h.height <= Height(c) then
      (if BlockHash(cr, c.blocks[h.height].header) == BlockHash(cr, h) then Dup else BadParent)
    else if h.height != Height(c) + 1 || h.parentHash != BlockHash(cr, Tip(c)) then BadParent
    else if h.slot <= Tip(c).slot then BadTime
    else if Signed(h.timestampMs) < start - 3000 || Signed(h.timestampMs) > start + 3000 then BadTime
    else if h.timestampMs > (now + 1500) % W64 then Future
    else if h.gasLimit != BLOCK_GAS_LIMIT then BadHeader
    else if !LeaderOk(cr, c, h) then BadProposer
    else if h.baseFee < MIN_BASE_FEE then BadHeader
    else if (h.baseFee + 1) % W64 < expected || h.baseFee > (expected + 1) % W64 then BadHeader
    else Ok
  }

  /** The checks made by executing the block (src/chain.c:1037-1112). */
  ghost function BodyVerdict(cr: Crypto, c: Chain, b: Block): Verdict
    requires c.blocks != []
  {
    match ExecTxs(cr, c.ledger, b.txs, b.header.slot, b.header.baseFee)
    case None => BadTx
    case Some(x) =>
      var post := PostLedger(cr, c.ledger, b);
      if x.gas != b.header.gasUsed then BadGas
      else if TxRoot(cr, b.txs) != b.header.txRoot then BadTx
      else if StateRoot(cr, post) != b.header.stateRoot then BadStateRoot
      else if !CommitOk(cr, SeedFor(cr, c, b.header.slot), c.ledger, post, c.live, Height(c), b) then BadCommit
      else Ok
  }

  ghost function BlockVerdict(cr: Crypto, c: Chain, b: Block, now: U64): Verdict
    requires c.blocks != []
  {
    var v := HeaderVerdict(cr, c, b.header, now);
    if v != Ok then v else BodyVerdict(cr, c, b)
  }

  function Entries(cr: Crypto, b: Block): (es: seq<TxEntry>)
    ensures |es| == |b.txs|
  {
    seq(|b.txs|, i requires 0 <= i < |b.txs| => TxEntry(TxHash(cr, b.txs[i]), b.header.height, i))
  }

  /** The chain with one more block. */
  function Extend(cr: Crypto, c: Chain, b: Block): (r: Chain)
    ensures r.blocks == c.blocks + [b]
  {
    c.(blocks := c.blocks + [b],
       ledger := PostLedger(cr, c.ledger, b),
       live := RecordSigners(c.live, b.signers, b.header.height),
       index := c.index + Entries(cr, b))
  }

  /** `ac_chain_accept_block`: any verdict but `Ok` changes nothing. */
  ghost function Accept(cr: Crypto, c: Chain, b: Block, now: U64): (r: Chain)
    requires c.blocks != []
    ensures r.blocks != []
  {
    if BlockVerdict(cr, c, b, now) == Ok then Extend(cr, c, b) else c
  }

  // ---------------------------------------------------------------------------
  // Genesis and runs
  // ---------------------------------------------------------------------------

  datatype GenesisAccount = GenesisAccount(addr: Addr, balance: U64, stake: U64)
  datatype Genesis = Genesis(chainId: U64, timestampMs: U64, accounts: seq<GenesisAccount>)

  function GenesisLedger(g: Genesis, n: nat): Ledger
    requires n <= |g.accounts|
  {
    if n == 0 then Set(Ledger(g.chainId, map[], map[]), REWARD_POOL, Holdings(POOL_SEED, 0, 0, 0))
    else
      var a := g.accounts[n - 1];
      Set(GenesisLedger(g, n - 1), a.addr, Holdings(a.balance, 0, a.stake, 0))
  }

  function GenesisLive(g: Genesis, n: nat): seq<LiveEntry>
    requires n <= |g.accounts|
  {
    if n == 0 then []
    else
      var live, a := GenesisLive(g, n - 1), g.accounts[n - 1];
      if a.stake >= MIN_STAKE && |live| < MAX_LIVE then live + [LiveEntry(a.addr, 0)] else live
  }

  ghost function GenesisBlock(cr: Crypto, g: Genesis): Block {
    var root := StateRoot(cr, GenesisLedger(g, |g.accounts|));
    Block(Header(BLOCK_VERSION, 0, 0, ZERO_HASH, g.timestampMs, ZERO_HASH, ZERO_SIG, root, ZERO_HASH,
                 MIN_BASE_FEE, 0, BLOCK_GAS_LIMIT, 0), [], [])
  }

  ghost function GenesisChain(cr: Crypto, g: Genesis): Chain {
    Chain(g.chainId, g.timestampMs, [GenesisBlock(cr, g)], GenesisLedger(g, |g.accounts|),
          GenesisLive(g, |g.accounts|), [])
  }

  /** A block offered to `accept_block` at a moment of the wall clock. */
  datatype Offer = Offer(block: Block, now: U64)

  /** Any sequence of offers, accepted or not. */
  ghost function Run(cr: Crypto, g: Genesis, offers: seq<Offer>): (c: Chain)
    ensures c.blocks != []
  {
    if offers == [] then GenesisChain(cr, g)
    else
      var o := offers[|offers| - 1];
      Accept(cr, Run(cr, g, offers[..|offers| - 1]), o.block, o.now)
  }

  /** The chain that replaying `blocks` from genesis gives, with no checks. */
  ghost function Replay(cr: Crypto, g: Genesis, blocks: seq<Block>): Chain {
    if |blocks| <= 1 then GenesisChain(cr, g)
    else Extend(cr, Replay(cr, g, blocks[..|blocks| - 1]), blocks[|blocks| - 1])
  }

  /** The ledger on which the block of height `h` was executed. */
  ghost function LedgerBelow(cr: Crypto, g: Genesis, c: Chain, h: nat): Ledger
    requires 1 <= h <= |c.blocks|
  {
    Replay(cr, g, c.blocks[..h]).ledger
  }

  /** `b` was accepted on top of `c` at some moment. */
  ghost predicate Accepted(cr: Crypto, c: Chain, b: Block) {
    c.blocks != [] && exists now: U64 :: BlockVerdict(cr, c, b, now) == Ok
  }

  /** What every reachable chain is: its own replay, each block accepted on the replay of its prefix. */
  ghost predicate Grown(cr: Crypto, g: Genesis, c: Chain) {
    && c.blocks != [] && c == Replay(cr, g, c.blocks)
    && forall h :: 1 <= h < |c.blocks| ==> Accepted(cr, Replay(cr, g, c.blocks[..h]), c.blocks[h])
  }

  /** Tip state, live map and index always equal the replay of the stored blocks. */
  lemma {:induction false} RunIsReplay(cr: Crypto, g: Genesis, offers: seq<Offer>)
    ensures Grown(cr, g, Run(cr, g, offers))
  {
    hide BlockVerdict, Extend, GenesisChain;
    if offers == [] {
      var c := GenesisChain(cr, g);
      assert |c.blocks| == 1 by { GenesisHasOneBlock(cr, g); }
    } else {
      var o := offers[|offers| - 1];
      var c := Run(cr, g, offers[..|offers| - 1]);
      RunIsReplay(cr, g, offers[..|offers| - 1]);
      if BlockVerdict(cr, c, o.block, o.now) == Ok {
        GrownExtends(cr, g, c, o.block, o.now);
      }
    }
  }

  lemma GenesisHasOneBlock(cr: Crypto, g: Genesis)
    ensures GenesisChain(cr, g).blocks == [GenesisBlock(cr, g)]
  {
  }

  lemma ReplayExtends(cr: Crypto, g: Genesis, c: Chain, b: Block)
    requires c.blocks != [] && c == Replay(cr, g, c.blocks)
    ensures Extend(cr, c, b) == Replay(cr, g, Extend(cr, c, b).blocks)
  {
    hide Extend, GenesisChain;
    assert (c.blocks + [b])[..|c.blocks|] == c.blocks;
  }

  lemma GrownExtends(cr: Crypto, g: Genesis, c: Chain, b: Block, now: U64)
    requires Grown(cr, g, c) && BlockVerdict(cr, c, b, now) == Ok
    ensures Grown(cr, g, Extend(cr, c, b))
  {
    hide BlockVerdict, Extend, Replay;
    var d := Extend(cr, c, b);
    ReplayExtends(cr, g, c, b);
    forall h | 1 <= h < |d.blocks| ensures Accepted(cr, Replay(cr, g, d.blocks[..h]), d.blocks[h]) {
      if h < |c.blocks| {
        assert d.blocks[..h] == c.blocks[..h];
      } else {
        assert d.blocks[..h] == c.blocks;
      }
    }
  }

  lemma {:induction false} ReplayBlocks(cr: Crypto, g: Genesis, blocks: seq<Block>)
    requires blocks != [] && blocks[0] == GenesisBlock(cr, g)
    ensures Replay(cr, g, blocks).blocks == blocks
    ensures Replay(cr, g, blocks).chainId == g.chainId && Replay(cr, g, blocks).genesisMs == g.timestampMs
  {
    hide GenesisBlock, PostLedger, RecordSigners, Entries;
    if |blocks| > 1 {
      ReplayBlocks(cr, g, blocks[..|blocks| - 1]);
    }
  }

  lemma GrownPrefix(cr: Crypto, g: Genesis, c: Chain, h: nat)
    requires Grown(cr, g, c) && 1 <= h <= |c.blocks|
    ensures c.blocks[0] == GenesisBlock(cr, g)
    ensures var p := Replay(cr, g, c.blocks[..h]); Grown(cr, g, p) && p.blocks == c.blocks[..h]
    ensures c.chainId == g.chainId && c.genesisMs == g.timestampMs
  {
    hide Accepted, GenesisBlock, Replay;
    FirstBlock(cr, g, c.blocks);
    ReplayBlocks(cr, g, c.blocks);
    ReplayBlocks(cr, g, c.blocks[..h]);
    var p := Replay(cr, g, c.blocks[..h]);
    forall k | 1 <= k < h ensures Accepted(cr, Replay(cr, g, p.blocks[..k]), p.blocks[k]) {
      assert p.blocks[..k] == c.blocks[..k];
    }
  }

  /** The last block of a reachable chain was accepted on the reachable chain below it. */
  lemma GrownStep(cr: Crypto, g: Genesis, c: Chain)
    requires Grown(cr, g, c) && |c.blocks| > 1
    ensures var n := |c.blocks| - 1; var p := Replay(cr, g, c.blocks[..n]);
      && Grown(cr, g, p) && p.blocks == c.blocks[..n] && c == Extend(cr, p, c.blocks[n]) && Accepted(cr, p, c.blocks[n])
  {
    hide Accepted, Extend, GenesisChain;
    GrownPrefix(cr, g, c, |c.blocks| - 1);
  }

  lemma {:induction false} FirstBlock(cr: Crypto, g: Genesis, blocks: seq<Block>)
    ensures Replay(cr, g, blocks).blocks != [] && Replay(cr, g, blocks).blocks[0] == GenesisBlock(cr, g)
  {
    if |blocks| > 1 {
      FirstBlock(cr, g, blocks[..|blocks| - 1]);
    }
  }
}
