/**
 Nonces and the transaction index over whole runs (src/state.c:396-440, src/chain.c:207-235, 394-417).
 */
module Nonces {
  import opened Words
  import opened Types
  import opened Codec
  import opened Ledgers
  import opened Chains
  import opened ChainFacts

  /** How many of `txs` were sent by `a`. */
  function Count(txs: seq<Tx>, a: Bytes): (n: nat)
    ensures n <= |txs|
  {
    if txs == [] then 0
    else Count(txs[..|txs| - 1], a) + if txs[|txs| - 1].sender == a then 1 else 0
  }

  /** Every transaction of the chain, in the order of commitment. */
  function Committed(blocks: seq<Block>): seq<Tx> {
    if blocks == [] then [] else Committed(blocks[..|blocks| - 1]) + blocks[|blocks| - 1].txs
  }

  /** Position `p` of a list of transactions carries the number of earlier ones by its sender. */
  predicate InSequence(txs: seq<Tx>, start: nat, p: nat)
    requires p < |txs|
  {
    txs[p].nonce == (start + Count(txs[..p], txs[p].sender)) % W64
  }

  lemma {:induction false} CountAppend(s: seq<Tx>, t: seq<Tx>, a: Bytes)
    ensures Count(s + t, a) == Count(s, a) + Count(t, a)
    decreases |t|
  {
    if t == [] {
      assert s + t == s;
    } else {
      var init := t[..|t| - 1];
      CountAppend(s, init, a);
      assert (s + t)[..|s + t| - 1] == s + init;
    }
  }

  lemma {:induction false} ExecNonceAfter(cr: Crypto, l: Ledger, txs: seq<Tx>, slot: U64, baseFee: U64, a: Bytes)
    requires ExecTxs(cr, l, txs, slot, baseFee).Some?
    ensures Get(ExecTxs(cr, l, txs, slot, baseFee).value.ledger, a).nonce == (Get(l, a).nonce + Count(txs, a)) % W64
  {
    hide ApplyTx, Get, TxVerify;
    if txs != [] {
      var n := |txs| - 1;
      var init, tx := txs[..n], txs[n];
      ExecNonceAfter(cr, l, init, slot, baseFee, a);
      var x := ExecTxs(cr, l, init, slot, baseFee).value;
      NonceStep(cr, x.ledger, tx, slot, baseFee, a);
      ModAdd(Get(l, a).nonce + Count(init, a), 1);
    }
  }

  lemma {:induction false} ExecInSequence(cr: Crypto, l: Ledger, txs: seq<Tx>, slot: U64, baseFee: U64, p: nat)
    requires ExecTxs(cr, l, txs, slot, baseFee).Some? && p < |txs|
    ensures InSequence(txs, Get(l, txs[p].sender).nonce, p)
  {
    hide ApplyTx, Get, TxVerify, Count;
    var n := |txs| - 1;
    var init, tx := txs[..n], txs[n];
    if p < n {
      ExecInSequence(cr, l, init, slot, baseFee, p);
      assert init[..p] == txs[..p];
    } else {
      ExecNonceAfter(cr, l, init, slot, baseFee, tx.sender);
      NonceStep(cr, ExecTxs(cr, l, init, slot, baseFee).value.ledger, tx, slot, baseFee, tx.sender);
    }
  }

  lemma PayLeaderKeepsNonces(l: Ledger, proposer: Addr, height: nat, tips: U64, a: Bytes)
    ensures Get(PayLeader(l, proposer, height, tips), a).nonce == Get(l, a).nonce
  {
  }

  lemma {:induction false} GenesisNonces(g: Genesis, n: nat, a: Bytes)
    requires n <= |g.accounts|
    ensures Get(GenesisLedger(g, n), a).nonce == 0
  {
    if n > 0 {
      GenesisNonces(g, n - 1, a);
    }
  }

  lemma OkExecutes(cr: Crypto, c: Chain, b: Block)
    requires Accepted(cr, c, b)
    ensures ExecTxs(cr, c.ledger, b.txs, b.header.slot, b.header.baseFee).Some?
  {
    hide HeaderVerdict, ExecTxs, PostLedger;
    var now: U64 :| BlockVerdict(cr, c, b, now) == Ok;
  }

  /**
   Replay protection over every run: an account's nonce is the number of its committed transactions,
   and the committed nonces of each sender are 0, 1, 2, ... in order.
   */
  lemma {:induction false} NoncesCount(cr: Crypto, g: Genesis, c: Chain, a: Bytes)
    requires Grown(cr, g, c)
    ensures Get(c.ledger, a).nonce == Count(Committed(c.blocks), a) % W64
    decreases |c.blocks|
  {
    hide Accepted, ExecTxs, Get, GenesisLedger, GenesisBlock, Count, Extend, Replay;
    var n := |c.blocks| - 1;
    if n == 0 {
      GenesisNonces(g, |g.accounts|, a);
      NothingAtGenesis(cr, g, c, a);
    } else {
      var p, b := Replay(cr, g, c.blocks[..n]), c.blocks[n];
      GrownStep(cr, g, c);
      NoncesCount(cr, g, p, a);
      OkExecutes(cr, p, b);
      NextBlock(cr, p, b, a);
      CountAppend(Committed(p.blocks), b.txs, a);
      ModAdd(Count(Committed(p.blocks), a), Count(b.txs, a));
    }
  }

  /** The committed nonces of each sender are 0, 1, 2, ... in the order of commitment. */
  lemma {:induction false} NoncesInSequence(cr: Crypto, g: Genesis, c: Chain, q: nat)
    requires Grown(cr, g, c) && q < |Committed(c.blocks)|
    ensures InSequence(Committed(c.blocks), 0, q)
    decreases |c.blocks|
  {
    hide Accepted, ExecTxs, Get, InSequence, GenesisBlock, Count, Extend, Replay;
    var n := |c.blocks| - 1;
    if n == 0 {
      NothingAtGenesis(cr, g, c, []);
    } else {
      var p, b := Replay(cr, g, c.blocks[..n]), c.blocks[n];
      GrownStep(cr, g, c);
      var before := Committed(p.blocks);
      if q < |before| {
        NoncesInSequence(cr, g, p, q);
        PrefixInSequence(before, b.txs, q);
      } else {
        OkExecutes(cr, p, b);
        var tx := b.txs[q - |before|];
        NoncesCount(cr, g, p, tx.sender);
        ExecInSequence(cr, p.ledger, b.txs, b.header.slot, b.header.baseFee, q - |before|);
        SuffixInSequence(before, b.txs, q - |before|, Get(p.ledger, tx.sender).nonce);
      }
    }
  }

  lemma NothingAtGenesis(cr: Crypto, g: Genesis, c: Chain, a: Bytes)
    requires Grown(cr, g, c) && |c.blocks| == 1
    ensures Committed(c.blocks) == [] && Count([], a) == 0
    ensures c.ledger == GenesisLedger(g, |g.accounts|)
  {
    hide GenesisBlock, GenesisLedger;
    GrownPrefix(cr, g, c, 1);
    GenesisIsEmpty(cr, g);
    assert Committed(c.blocks[..0]) == [];
  }

  lemma GenesisIsEmpty(cr: Crypto, g: Genesis)
    ensures GenesisBlock(cr, g).txs == []
  {
  }

  lemma NextBlock(cr: Crypto, c: Chain, b: Block, a: Bytes)
    requires ExecTxs(cr, c.ledger, b.txs, b.header.slot, b.header.baseFee).Some?
    ensures Get(Extend(cr, c, b).ledger, a).nonce == (Get(c.ledger, a).nonce + Count(b.txs, a)) % W64
  {
    hide ExecTxs, PayLeader, Get, Entries, Count;
    ExecNonceAfter(cr, c.ledger, b.txs, b.header.slot, b.header.baseFee, a);
    var x := ExecTxs(cr, c.ledger, b.txs, b.header.slot, b.header.baseFee).value;
    PayLeaderKeepsNonces(x.ledger, b.header.proposer, b.header.height, x.tips, a);
  }

  lemma PrefixInSequence(s: seq<Tx>, t: seq<Tx>, q: nat)
    requires q < |s| && InSequence(s, 0, q)
    ensures InSequence(s + t, 0, q)
  {
    assert (s + t)[..q] == s[..q];
  }

  lemma SuffixInSequence(s: seq<Tx>, t: seq<Tx>, q: nat, start: nat)
    requires q < |t| && InSequence(t, start, q) && start == Count(s, t[q].sender) % W64
    ensures InSequence(s + t, 0, |s| + q)
  {
    hide Count;
    assert (s + t)[..|s| + q] == s + t[..q];
    CountAppend(s, t[..q], t[q].sender);
    ModAdd(Count(s, t[q].sender), Count(t[..q], t[q].sender));
  }

  // ---------------------------------------------------------------------------
  // No transaction is committed twice
  // ---------------------------------------------------------------------------

  lemma {:induction false} CountGrows(txs: seq<Tx>, p: nat, q: nat)
    requires p < q <= |txs|
    ensures Count(txs[..p], txs[p].sender) < Count(txs[..q], txs[p].sender)
  {
    assert txs[..q][..q - 1] == txs[..q - 1];
    if p < q - 1 {
      CountGrows(txs, p, q - 1);
    }
  }

  /** Two committed transactions never have the same content, while fewer than 2^64 were committed. */
  lemma NoReplay(cr: Crypto, g: Genesis, c: Chain, p: nat, q: nat)
    requires Grown(cr, g, c)
    requires var txs := Committed(c.blocks); p < q < |txs| && |txs| <= W64
    ensures var txs := Committed(c.blocks); Unsigned(txs[p]) != Unsigned(txs[q])
  {
    hide Grown, Committed, Count;
    var txs := Committed(c.blocks);
    NoncesInSequence(cr, g, c, p);
    NoncesInSequence(cr, g, c, q);
    if Unsigned(txs[p]) == Unsigned(txs[q]) {
      assert txs[q].nonce == txs[p].nonce && txs[q].sender == txs[p].sender;
      CountGrows(txs, p, q);
    }
  }

  // ---------------------------------------------------------------------------
  // The transaction index
  // ---------------------------------------------------------------------------

  /** A committed transaction with hash `hash` sits at position `i` of block `h`. */
  predicate CommittedAt(cr: Crypto, blocks: seq<Block>, hash: Hash, h: nat, i: nat) {
    1 <= h < |blocks| && i < |blocks[h].txs| && TxHash(cr, blocks[h].txs[i]) == hash
  }

  /** What a linear scan of the stored blocks from height 1 would index (src/chain.c:394-404). */
  function ScanIndex(cr: Crypto, blocks: seq<Block>): seq<TxEntry> {
    if |blocks| <= 1 then []
    else ScanIndex(cr, blocks[..|blocks| - 1]) + Entries(cr, blocks[|blocks| - 1])
  }

  /** The index kept by `accept_block` is the one a restart rebuilds from disk. */
  lemma {:induction false} IndexIsScan(cr: Crypto, g: Genesis, blocks: seq<Block>)
    ensures Replay(cr, g, blocks).index == ScanIndex(cr, blocks)
  {
    if |blocks| > 1 {
      IndexIsScan(cr, g, blocks[..|blocks| - 1]);
    }
  }

  /** The index lists exactly the committed transactions, each with its place. */
  lemma {:induction false} ScanIsComplete(cr: Crypto, blocks: seq<Block>, e: TxEntry)
    requires forall h :: 1 <= h < |blocks| ==> blocks[h].header.height == h
    ensures e in ScanIndex(cr, blocks) <==> CommittedAt(cr, blocks, e.hash, e.height, e.index)
  {
    if |blocks| > 1 {
      var n := |blocks| - 1;
      var init := blocks[..n];
      ScanIsComplete(cr, init, e);
      EntriesAre(cr, blocks[n], e);
      assert e.height < n ==> (CommittedAt(cr, blocks, e.hash, e.height, e.index) <==>
                               CommittedAt(cr, init, e.hash, e.height, e.index));
    }
  }

  lemma EntriesAre(cr: Crypto, b: Block, e: TxEntry)
    ensures e in Entries(cr, b) <==>
            e.height == b.header.height && e.index < |b.txs| && TxHash(cr, b.txs[e.index]) == e.hash
  {
    hide TxHash;
    if e.height == b.header.height && e.index < |b.txs| && TxHash(cr, b.txs[e.index]) == e.hash {
      assert Entries(cr, b)[e.index] == e;
    }
  }

  // ---------------------------------------------------------------------------
  // Lookups
  // ---------------------------------------------------------------------------

  /** Where the transaction `i` of block `h` stands in the order of commitment. */
  function Rank(blocks: seq<Block>, h: nat, i: nat): nat
    requires h < |blocks|
  {
    |Committed(blocks[..h])| + i
  }

  lemma {:induction false} RankIsPlace(blocks: seq<Block>, h: nat, i: nat)
    requires h < |blocks| && i < |blocks[h].txs|
    ensures Rank(blocks, h, i) < |Committed(blocks)| && Committed(blocks)[Rank(blocks, h, i)] == blocks[h].txs[i]
    decreases |blocks|
  {
    var init := blocks[..|blocks| - 1];
    if h < |blocks| - 1 {
      RankIsPlace(init, h, i);
      assert init[..h] == blocks[..h];
    }
  }

  lemma {:induction false} RankGrows(blocks: seq<Block>, h: nat, k: nat)
    requires h < k < |blocks|
    ensures |Committed(blocks[..h])| + |blocks[h].txs| <= |Committed(blocks[..k])|
    decreases k
  {
    assert blocks[..k][..k - 1] == blocks[..k - 1];
    if h < k - 1 {
      RankGrows(blocks, h, k - 1);
    }
  }

  lemma RankInjective(blocks: seq<Block>, h: nat, i: nat, k: nat, j: nat)
    requires h < |blocks| && i < |blocks[h].txs| && k < |blocks| && j < |blocks[k].txs|
    requires Rank(blocks, h, i) == Rank(blocks, k, j)
    ensures h == k && i == j
  {
    hide Committed;
    if h < k {
      RankGrows(blocks, h, k);
    } else if k < h {
      RankGrows(blocks, k, h);
    }
  }

  /** The strings hashed for the committed transactions. */
  function Signables(blocks: seq<Block>): set<Bytes> {
    set i | 0 <= i < |Committed(blocks)| :: SignableBytes(Committed(blocks)[i])
  }

  /**
   A transaction hash occurs at one place of the chain only, so the index and a linear scan of the stored
   blocks give the same answer to every lookup.
   */
  lemma LookupIsUnique(cr: Crypto, g: Genesis, c: Chain, hash: Hash, h: nat, i: nat, k: nat, j: nat)
    requires Grown(cr, g, c) && |Committed(c.blocks)| <= W64 && NoCollision(cr, Signables(c.blocks))
    requires CommittedAt(cr, c.blocks, hash, h, i) && CommittedAt(cr, c.blocks, hash, k, j)
    ensures h == k && i == j
  {
    hide Grown, Committed, SignableBytes, Rank, Unsigned;
    var txs, p, q := Committed(c.blocks), Rank(c.blocks, h, i), Rank(c.blocks, k, j);
    RankIsPlace(c.blocks, h, i);
    RankIsPlace(c.blocks, k, j);
    assert SignableBytes(txs[p]) in Signables(c.blocks) && SignableBytes(txs[q]) in Signables(c.blocks);
    SignableInjective(txs[p], txs[q]);
    if p < q {
      NoReplay(cr, g, c, p, q);
    } else if q < p {
      NoReplay(cr, g, c, q, p);
    }
    RankInjective(c.blocks, h, i, k, j);
  }

  /** What `ac_chain_tx_find` may return, and that it finds every committed transaction. */
  lemma IndexAnswersLikeAScan(cr: Crypto, g: Genesis, c: Chain, e: TxEntry)
    requires Grown(cr, g, c)
    ensures e in c.index <==> CommittedAt(cr, c.blocks, e.hash, e.height, e.index)
  {
    hide CommittedAt, ScanIndex, Accepted, TxHash, ExpectedBaseFee, BlockHash, ExecTxs, LeaderOk;
    IndexIsScan(cr, g, c.blocks);
    forall h | 1 <= h < |c.blocks| ensures c.blocks[h].header.height == h {
      HeaderFacts(cr, g, c, h);
    }
    ScanIsComplete(cr, c.blocks, e);
  }
}
