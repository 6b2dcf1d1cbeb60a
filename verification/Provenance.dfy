/**
 Where everything on a reachable chain comes from: signed transactions, drawn committees, eligible
 leaders, and nothing else (src/chain.c:883-1150; section 6.7 of PROTOCOL.md).
 */
module Provenance {
  import opened Words
  import opened Types
  import opened Codec
  import opened Isqrt
  import opened Market
  import opened Ledgers
  import opened Admission
  import opened Quorum
  import opened Snapshots
  import opened Chains
  import opened ChainFacts
  import Liveness

  // ---------------------------------------------------------------------------
  // Transactions
  // ---------------------------------------------------------------------------

  /** The state before transaction `i`, when everything before it executes. */
  function Before(cr: Crypto, l: Ledger, txs: seq<Tx>, slot: U64, baseFee: U64, i: nat): Option<Exec>
    requires i <= |txs|
  {
    ExecTxs(cr, l, txs[..i], slot, baseFee)
  }

  /** Transaction `i` is signed by its sender, taken by the ledger it meets, and fits the block. */
  predicate RunsAt(cr: Crypto, l: Ledger, txs: seq<Tx>, slot: U64, baseFee: U64, i: nat)
    requires i < |txs|
  {
    var x := Before(cr, l, txs, slot, baseFee, i);
    && x.Some? && TxVerify(cr, txs[i])
    && var r := ApplyTx(cr, x.value.ledger, txs[i], slot, baseFee).1;
      r.Included? && x.value.gas + r.gas <= BLOCK_GAS_LIMIT
  }

  /** A list of transactions executes if and only if each of them does, where its turn comes. */
  lemma {:induction false} ExecutesIffEachRuns(cr: Crypto, l: Ledger, txs: seq<Tx>, slot: U64, baseFee: U64)
    ensures ExecTxs(cr, l, txs, slot, baseFee).Some? <==>
      forall i :: 0 <= i < |txs| ==> RunsAt(cr, l, txs, slot, baseFee, i)
  {
    hide ApplyTx, TxVerify;
    if txs != [] {
      var n := |txs| - 1;
      var init := txs[..n];
      ExecutesIffEachRuns(cr, l, init, slot, baseFee);
      forall i | 0 <= i < n ensures RunsAt(cr, l, init, slot, baseFee, i) <==> RunsAt(cr, l, txs, slot, baseFee, i) {
        assert init[..i] == txs[..i] && init[i] == txs[i];
      }
      assert ExecTxs(cr, l, txs, slot, baseFee).Some? <==>
        ExecTxs(cr, l, init, slot, baseFee).Some? && RunsAt(cr, l, txs, slot, baseFee, n);
    }
  }

  lemma {:induction false} ExecKeepsChainId(cr: Crypto, l: Ledger, txs: seq<Tx>, slot: U64, baseFee: U64)
    ensures var x := ExecTxs(cr, l, txs, slot, baseFee); x.Some? ==> x.value.ledger.chainId == l.chainId
  {
    hide ApplyTx, TxVerify;
    if txs != [] {
      ExecKeepsChainId(cr, l, txs[..|txs| - 1], slot, baseFee);
      match ExecTxs(cr, l, txs[..|txs| - 1], slot, baseFee)
      case None =>
      case Some(x) => KeepsChainId(cr, x.ledger, txs[|txs| - 1], slot, baseFee);
    }
  }

  lemma {:induction false} ReplayKeepsChainId(cr: Crypto, g: Genesis, blocks: seq<Block>)
    ensures Replay(cr, g, blocks).ledger.chainId == g.chainId
  {
    hide ExecTxs, Set, BlockReward;
    if |blocks| <= 1 {
      GenesisKeepsChainId(g, |g.accounts|);
    } else {
      var b, l := blocks[|blocks| - 1], Replay(cr, g, blocks[..|blocks| - 1]).ledger;
      ReplayKeepsChainId(cr, g, blocks[..|blocks| - 1]);
      ExecKeepsChainId(cr, l, b.txs, b.header.slot, b.header.baseFee);
      match ExecTxs(cr, l, b.txs, b.header.slot, b.header.baseFee)
      case None =>
      case Some(x) => PayKeepsChainId(x.ledger, b.header.proposer, b.header.height, x.tips);
    }
  }

  lemma PayKeepsChainId(l: Ledger, proposer: Addr, height: nat, tips: U64)
    ensures PayLeader(l, proposer, height, tips).chainId == l.chainId
  {
  }

  lemma {:induction false} GenesisKeepsChainId(g: Genesis, n: nat)
    requires n <= |g.accounts|
    ensures GenesisLedger(g, n).chainId == g.chainId
  {
    if n > 0 {
      GenesisKeepsChainId(g, n - 1);
    }
  }

  /**
   Every transaction of every stored block carries its sender's valid signature, was made for this chain
   and had not expired in the slot of its block.
   */
  lemma CommittedAreAuthorized(cr: Crypto, g: Genesis, c: Chain, h: nat, i: nat)
    requires Grown(cr, g, c) && 1 <= h < |c.blocks| && i < |c.blocks[h].txs|
    ensures var tx := c.blocks[h].txs[i];
      && TxVerify(cr, tx) && tx.chainId == g.chainId && c.blocks[h].header.slot < tx.validUntil
      && tx.version == 1 && 1 <= tx.kind <= 5
  {
    hide Grown, Replay, ApplyTx, ExecTxs, TxVerify, ExpectedBaseFee, LeaderOk, BlockHash;
    HeaderFacts(cr, g, c, h);
    var b, l := c.blocks[h], Replay(cr, g, c.blocks[..h]).ledger;
    ExecutesIffEachRuns(cr, l, b.txs, b.header.slot, b.header.baseFee);
    assert RunsAt(cr, l, b.txs, b.header.slot, b.header.baseFee, i);
    ReplayKeepsChainId(cr, g, c.blocks[..h]);
    ExecKeepsChainId(cr, l, b.txs[..i], b.header.slot, b.header.baseFee);
    var x := Before(cr, l, b.txs, b.header.slot, b.header.baseFee, i).value;
    IncludedIsCurrent(cr, x.ledger, b.txs[i], b.header.slot, b.header.baseFee);
  }

  // ---------------------------------------------------------------------------
  // Blocks
  // ---------------------------------------------------------------------------

  /** Linked to the tip, in a later slot, and stamped within three seconds of the start of that slot. */
  predicate Linked(cr: Crypto, c: Chain, h: Header)
    requires c.blocks != []
  {
    && h.version == 1 && h.height == |c.blocks| && h.parentHash == BlockHash(cr, Tip(c)) && h.slot > Tip(c).slot
    && -3000 <= Signed(h.timestampMs) - Signed((c.genesisMs + 2000 * h.slot) % W64) <= 3000
  }

  /** Proposed by a validator with enough stake whose proof for this slot verifies. */
  predicate Led(cr: Crypto, c: Chain, h: Header)
    requires c.blocks != []
  {
    && Get(c.ledger, h.proposer).stake >= 100_000_000
    && cr.verify(h.vrfProof, Ascii("AGCH:VRF:v1") + (Ascii("AGCH:LEADER") + (SeedFor(cr, c, h.slot) + Be64(h.slot))),
                 h.proposer)
  }

  /** The gas limit is fixed, and the base fee is the expected one give or take one. */
  predicate Priced(c: Chain, h: Header)
    requires c.blocks != []
  {
    var tip := Tip(c);
    var expected := if |c.blocks| == 1 then 1 else if tip.gasLimit < 2 then tip.baseFee
                    else NextBaseFee(tip.baseFee, tip.gasUsed, tip.gasLimit);
    && h.gasLimit == 30_000_000 && h.baseFee >= 1
    && expected <= (h.baseFee + 1) % W64 && h.baseFee <= (expected + 1) % W64
  }

  /** Every transaction runs where its turn comes, and the header states gas, transactions and result. */
  ghost predicate Executed(cr: Crypto, c: Chain, b: Block)
    requires c.blocks != []
  {
    && (forall i :: 0 <= i < |b.txs| ==> RunsAt(cr, c.ledger, b.txs, b.header.slot, b.header.baseFee, i))
    && var x := ExecTxs(cr, c.ledger, b.txs, b.header.slot, b.header.baseFee);
      && x.Some? && x.value.gas == b.header.gasUsed
      && TxRoot(cr, b.txs) == b.header.txRoot && StateRoot(cr, PostLedger(cr, c.ledger, b)) == b.header.stateRoot
  }

  /** A signer: enough stake, drawn for the slot of the block, and a signature on this block at this height. */
  ghost predicate Entitled(cr: Crypto, c: Chain, b: Block, s: Signer)
    requires c.blocks != []
  {
    var stake := Get(c.ledger, s.signer).stake;
    var alpha := Ascii("AGCH:COMMITTEE") + (SeedFor(cr, c, b.header.slot) + Be64(b.header.slot));
    && stake >= 100_000_000
    && cr.verify(s.proof, Ascii("AGCH:VRF:v1") + alpha, s.signer)
    && cr.eligible(Val(cr.hash(Ascii("AGCH:VRF-OUT:v1") + s.proof)[..8]), Sqrt(stake), TotalWeight(c.ledger) % W64)
    && cr.verify(s.sig, Ascii("AGCH:VOTE:v1") + (Be64(b.header.height) + BlockHash(cr, b.header)), s.signer)
  }

  /** Signed by entitled validators with two thirds of the live weight and more than half of the total. */
  ghost predicate Sealed(cr: Crypto, c: Chain, b: Block)
    requires c.blocks != []
  {
    var total := TotalWeight(c.ledger) % W64;
    var live := LiveWeight(PostLedger(cr, c.ledger, b), c.live, Height(c));
    var signed := WeightOf(c.ledger, SignerAddrs(b.signers));
    && b.signers != [] && total != 0
    && (forall i :: 0 <= i < |b.signers| ==> Entitled(cr, c, b, b.signers[i]))
    && signed * 3 >= (2 * if live == 0 then total else live) % W64 && signed * 2 > total
  }

  lemma HeaderOkIff(cr: Crypto, c: Chain, h: Header, now: U64)
    requires c.blocks != []
    ensures HeaderVerdict(cr, c, h, now) == Ok <==>
      Linked(cr, c, h) && Led(cr, c, h) && Priced(c, h) && h.timestampMs <= (now + 1500) % W64
  {
    hide BlockHash, NextBaseFee, SeedFor, Signed;
  }

  lemma BodyOkIff(cr: Crypto, c: Chain, b: Block)
    requires c.blocks != []
    ensures BodyVerdict(cr, c, b) == Ok <==> Executed(cr, c, b) && Sealed(cr, c, b)
  {
    hide ExecTxs, PostLedger, StateRoot, TxRoot, SeedFor, TotalWeight, LiveWeight, WeightOf, BlockHash, RunsAt, Sealed,
      CommitOk;
    ExecutesIffEachRuns(cr, c.ledger, b.txs, b.header.slot, b.header.baseFee);
    SealedIff(cr, c, b);
  }

  lemma SealedIff(cr: Crypto, c: Chain, b: Block)
    requires c.blocks != []
    ensures Sealed(cr, c, b) <==>
      CommitOk(cr, SeedFor(cr, c, b.header.slot), c.ledger, PostLedger(cr, c.ledger, b), c.live, Height(c), b)
  {
    hide PostLedger, SeedFor, TotalWeight, LiveWeight, WeightOf, BlockHash;
    forall i | 0 <= i < |b.signers|
      ensures Entitled(cr, c, b, b.signers[i]) <==>
        SignerOk(cr, c.ledger, CommitteeAlpha(SeedFor(cr, c, b.header.slot), b.header.slot),
                 VoteMessage(b.header.height, BlockHash(cr, b.header)), TotalWeight(c.ledger) % W64, b.signers[i])
    {
      RdIsVal(cr.hash(Ascii("AGCH:VRF-OUT:v1") + b.signers[i].proof)[..8]);
    }
  }

  /**
   The seed of a draw: in the first 7200 slots the hash of the network's parameters, later the hash of the
   leader proof in the last block before the epoch of the slot.
   */
  lemma SeedOfSlot(cr: Crypto, c: Chain, slot: U64, k: nat)
    requires c.blocks != [] && c.blocks[0].header.slot == 0
    requires slot >= 7200 ==> LastOfEarlier(c.blocks, slot - slot % 7200, k)
    ensures SeedFor(cr, c, slot) ==
      if slot < 7200 then cr.hash(Ascii("AGCH:GENESIS:v1") + (Be64(c.chainId) + Be64(c.genesisMs)))
      else cr.hash(Ascii("AGCH:SEED") + c.blocks[k].header.vrfProof)
  {
    hide LastOfEarlier, LastBefore;
    if slot >= 7200 {
      assert Epoch(slot) * EPOCH_SLOTS == slot - slot % 7200;
      SeedOfEpoch(cr, c.chainId, c.genesisMs, c.blocks, slot, k);
    }
  }

  /** A block is accepted if and only if all conditions hold, in whatever order they are looked at. */
  lemma AcceptedIff(cr: Crypto, c: Chain, b: Block, now: U64)
    requires c.blocks != []
    ensures BlockVerdict(cr, c, b, now) == Ok <==>
      && Linked(cr, c, b.header) && Led(cr, c, b.header) && Priced(c, b.header)
      && b.header.timestampMs <= (now + 1500) % W64
      && Executed(cr, c, b) && Sealed(cr, c, b)
  {
    hide HeaderVerdict, BodyVerdict, Linked, Led, Priced, Executed, Sealed;
    HeaderOkIff(cr, c, b.header, now);
    BodyOkIff(cr, c, b);
  }

  /** A block is a duplicate if and only if the chain stores a block with its hash at its height, or it is at zero. */
  lemma DuplicateIff(cr: Crypto, c: Chain, b: Block, now: U64)
    requires c.blocks != []
    ensures BlockVerdict(cr, c, b, now) == Dup <==>
      && b.header.version == 1
      && (b.header.height == 0 || (b.header.height < |c.blocks|
          && BlockHash(cr, c.blocks[b.header.height].header) == BlockHash(cr, b.header)))
  {
    hide BlockHash, SlotTime, ExpectedBaseFee, LeaderOk, ExecTxs, PostLedger, TxRoot, StateRoot, CommitOk, Signed;
  }

  /**
   Over every run, each stored block was led, priced, executed and sealed on the chain below it, and
   stamped within three seconds of its slot.
   */
  lemma EveryBlockIsEarned(cr: Crypto, g: Genesis, c: Chain, h: nat)
    requires Grown(cr, g, c) && 1 <= h < |c.blocks|
    ensures var p := Replay(cr, g, c.blocks[..h]);
      && p.blocks == c.blocks[..h] && Linked(cr, p, c.blocks[h].header) && Led(cr, p, c.blocks[h].header)
      && Priced(p, c.blocks[h].header) && Executed(cr, p, c.blocks[h]) && Sealed(cr, p, c.blocks[h])
  {
    hide Replay, BlockVerdict, Linked, Led, Priced, Executed, Sealed, GenesisBlock;
    GrownPrefix(cr, g, c, h);
    var p := Replay(cr, g, c.blocks[..h]);
    assert Accepted(cr, p, c.blocks[h]);
    var now: U64 :| BlockVerdict(cr, p, c.blocks[h], now) == Ok;
    AcceptedIff(cr, p, c.blocks[h], now);
  }

  /** No stored block is stamped more than a second and a half after the last moment a block was offered. */
  lemma {:induction false} NothingFromTheFuture(cr: Crypto, g: Genesis, offers: seq<Offer>, last: nat)
    requires last + 1500 < W64 && forall i :: 0 <= i < |offers| ==> offers[i].now <= last
    ensures forall h :: 1 <= h < |Run(cr, g, offers).blocks| ==>
      Run(cr, g, offers).blocks[h].header.timestampMs <= last + 1500
  {
    hide BlockVerdict, Extend, GenesisChain, Linked, Led, Priced, Executed, Sealed;
    if offers == [] {
      GenesisHasOneBlock(cr, g);
    } else {
      var init, o := offers[..|offers| - 1], offers[|offers| - 1];
      NothingFromTheFuture(cr, g, init, last);
      AcceptedIff(cr, Run(cr, g, init), o.block, o.now);
    }
  }

  // ---------------------------------------------------------------------------
  // Genesis
  // ---------------------------------------------------------------------------

  lemma {:induction false} AllotsFirst(g: Genesis, n: nat, a: Addr)
    requires Liveness.DistinctGenesis(g) && n <= |g.accounts|
    ensures GenesisLedger(g, n).names == map[]
    ensures forall j :: 0 <= j < n && g.accounts[j].addr == a ==>
      Get(GenesisLedger(g, n), a) == Holdings(g.accounts[j].balance, 0, g.accounts[j].stake, 0)
    ensures (forall j :: 0 <= j < n ==> g.accounts[j].addr != a) ==>
      Get(GenesisLedger(g, n), a) == if a == REWARD_POOL then Holdings(60_000_000_000_000, 0, 0, 0) else EMPTY
  {
    if n > 0 {
      AllotsFirst(g, n - 1, a);
    }
  }

  /** Genesis gives every listed account its balance and stake, the pool its seed, nobody else anything. */
  lemma GenesisAllots(cr: Crypto, g: Genesis, a: Addr)
    requires Liveness.DistinctGenesis(g)
    ensures var c := GenesisChain(cr, g); var h := c.blocks[0].header;
      && |c.blocks| == 1 && c.index == [] && c.chainId == g.chainId && c.genesisMs == g.timestampMs
      && h.height == 0 && h.slot == 0 && h.parentHash == ZERO_HASH && h.timestampMs == g.timestampMs
      && h.stateRoot == StateRoot(cr, c.ledger) && h.baseFee == 1
    ensures var l := GenesisChain(cr, g).ledger;
      && l.names == map[] && l.chainId == g.chainId
      && (forall j :: 0 <= j < |g.accounts| && g.accounts[j].addr == a ==>
            Get(l, a) == Holdings(g.accounts[j].balance, 0, g.accounts[j].stake, 0))
      && ((forall j :: 0 <= j < |g.accounts| ==> g.accounts[j].addr != a) ==>
            Get(l, a) == if a == REWARD_POOL then Holdings(60_000_000_000_000, 0, 0, 0) else EMPTY)
  {
    hide StateRoot, GenesisLive;
    AllotsFirst(g, |g.accounts|, a);
    GenesisKeepsChainId(g, |g.accounts|);
  }
}
