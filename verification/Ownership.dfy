/**
 What can change an account: its own signed transactions, evidence against it, payments to it and the
 leader's reward (src/state.c:373-576; src/chain.c:1054-1085; sections 5 and 8.3 of PROTOCOL.md).
 */
module Ownership {
  import opened Words
  import opened Types
  import opened Codec
  import opened Market
  import opened Ledgers
  import opened Effects
  import opened Admission
  import opened Chains
  import opened Provenance
  import RewardPool

  // ---------------------------------------------------------------------------
  // One transaction of somebody else
  // ---------------------------------------------------------------------------

  /** The amount a transaction offers to `a`. */
  function Offered(tx: Tx, a: Bytes): nat {
    if tx.kind == TRANSFER && |tx.body| == 40 && tx.body[..32] == a then Sent(tx) else 0
  }

  /** The transaction carries valid evidence against `a`. */
  predicate Convicts(cr: Crypto, tx: Tx, a: Bytes) {
    && tx.kind == SLASH_EVIDENCE && ParseSlash(tx.body).Some? && ParseSlash(tx.body).value.validator == a
    && DoubleVote(cr, ParseSlash(tx.body).value)
  }

  /** Somebody else's transaction can pay an account, or destroy its stake with evidence, and nothing else. */
  lemma OthersOnlyGive(cr: Crypto, l: Ledger, tx: Tx, slot: U64, baseFee: U64, a: Addr)
    requires ApplyTx(cr, l, tx, slot, baseFee).1.Included? && a != tx.sender
    requires Get(l, a).balance + Offered(tx, a) < W64
    ensures var h, r := Get(l, a), Get(ApplyTx(cr, l, tx, slot, baseFee).0, a);
      && h.balance <= r.balance <= h.balance + Offered(tx, a)
      && r.nonce == h.nonce && r.unbondAt == h.unbondAt
      && (r.stake == h.stake || (r.stake == 0 && Convicts(cr, tx, a)))
  {
    hide ApplyTx, ParseSlash, ParseStake, ParseName, PerGas, Fee, DoubleVote, NameValid, Sent, ParseTransfer, Precheck;
    RewardPool.KindOf(cr, l, tx, slot, baseFee);
    if !Succeeds(cr, l, tx, slot, baseFee) {
      FailedBodyCostsOnlyFees(cr, l, tx, slot, baseFee);
    } else if tx.kind == TRANSFER {
      TransferMoves(cr, l, tx, slot, baseFee, a);
      OfferIsAmount(tx, a);
    } else if tx.kind == REGISTER_NAME {
      RegisterOwns(cr, l, tx, slot, baseFee, a);
    } else if tx.kind == SLASH_EVIDENCE {
      SlashTouches(cr, l, tx, slot, baseFee, a);
    } else {
      StakeMoves(cr, l, tx, slot, baseFee, a);
    }
  }

  lemma OfferIsAmount(tx: Tx, a: Bytes)
    requires tx.kind == TRANSFER && ParseTransfer(tx.body).Some?
    ensures var b := ParseTransfer(tx.body).value; Offered(tx, a) == if b.recipient == a then b.amount else 0
  {
    SentIsValue(tx);
  }

  // ---------------------------------------------------------------------------
  // A list of transactions
  // ---------------------------------------------------------------------------

  function OfferedBy(txs: seq<Tx>, a: Bytes): nat {
    if txs == [] then 0 else OfferedBy(txs[..|txs| - 1], a) + Offered(txs[|txs| - 1], a)
  }

  predicate Silent(txs: seq<Tx>, a: Bytes) {
    forall i :: 0 <= i < |txs| ==> txs[i].sender != a
  }

  predicate Convicted(cr: Crypto, txs: seq<Tx>, a: Bytes) {
    exists i :: 0 <= i < |txs| && Convicts(cr, txs[i], a)
  }

  lemma {:induction false} OthersOnlyGiveAll(cr: Crypto, l: Ledger, txs: seq<Tx>, slot: U64, baseFee: U64, a: Addr)
    requires ExecTxs(cr, l, txs, slot, baseFee).Some? && Silent(txs, a)
    requires Get(l, a).balance + OfferedBy(txs, a) < W64
    ensures var h, r := Get(l, a), Get(ExecTxs(cr, l, txs, slot, baseFee).value.ledger, a);
      && h.balance <= r.balance <= h.balance + OfferedBy(txs, a)
      && r.nonce == h.nonce && r.unbondAt == h.unbondAt
      && (r.stake == h.stake || (r.stake == 0 && Convicted(cr, txs, a)))
  {
    hide ApplyTx, TxVerify, Convicts, Offered, Get;
    if txs != [] {
      var n := |txs| - 1;
      var init := txs[..n];
      assert forall i :: 0 <= i < n ==> init[i] == txs[i];
      OthersOnlyGiveAll(cr, l, init, slot, baseFee, a);
      OthersOnlyGive(cr, ExecTxs(cr, l, init, slot, baseFee).value.ledger, txs[n], slot, baseFee, a);
    }
  }

  // ---------------------------------------------------------------------------
  // The leader
  // ---------------------------------------------------------------------------

  /** The sum of tip times gas over the transactions of a block, before any wrap. */
  function Tips(cr: Crypto, l: Ledger, txs: seq<Tx>, slot: U64, baseFee: U64): nat {
    if txs == [] then 0
    else
      var init, tx := txs[..|txs| - 1], txs[|txs| - 1];
      Tips(cr, l, init, slot, baseFee) +
      match ExecTxs(cr, l, init, slot, baseFee)
      case None => 0
      case Some(x) =>
        var r := ApplyTx(cr, x.ledger, tx, slot, baseFee).1;
        if r.Included? then Fee(r.gas, tx.tip) else 0
  }

  lemma TipIsProduct(cr: Crypto, l: Ledger, tx: Tx, slot: U64, baseFee: U64)
    requires ApplyTx(cr, l, tx, slot, baseFee).1.Included?
    ensures var r := ApplyTx(cr, l, tx, slot, baseFee).1; r.tip == Fee(r.gas, tx.tip) % W64
  {
    hide Body, Precheck, Paid, BaseFeeDue, GasCharged;
  }

  lemma {:induction false} TipsAddUp(cr: Crypto, l: Ledger, txs: seq<Tx>, slot: U64, baseFee: U64)
    requires ExecTxs(cr, l, txs, slot, baseFee).Some?
    ensures ExecTxs(cr, l, txs, slot, baseFee).value.tips == Tips(cr, l, txs, slot, baseFee) % W64
  {
    hide ApplyTx, TxVerify, Fee;
    if txs != [] {
      var init, tx := txs[..|txs| - 1], txs[|txs| - 1];
      TipsAddUp(cr, l, init, slot, baseFee);
      var x := ExecTxs(cr, l, init, slot, baseFee).value;
      TipIsProduct(cr, x.ledger, tx, slot, baseFee);
      var r := ApplyTx(cr, x.ledger, tx, slot, baseFee).1;
      WordSum(Tips(cr, l, init, slot, baseFee), Fee(r.gas, tx.tip));
    }
  }

  lemma WordSum(x: nat, y: nat)
    ensures (x % W64 + y % W64) % W64 == (x + y) % W64
  {
    ModAdd(x, y % W64);
    ModAdd(y, x);
  }

  /** What the leader of a block earns. */
  function Earned(cr: Crypto, l: Ledger, b: Block): nat {
    BlockReward(b.header.height) + Tips(cr, l, b.txs, b.header.slot, b.header.baseFee)
  }

  /**
   After its transactions a block pays reward and all tips to its leader, takes the reward out of the
   pool, and touches nobody else.
   */
  lemma LeaderIsPaid(cr: Crypto, l: Ledger, b: Block, a: Bytes)
    requires ExecTxs(cr, l, b.txs, b.header.slot, b.header.baseFee).Some?
    ensures var x := ExecTxs(cr, l, b.txs, b.header.slot, b.header.baseFee).value.ledger;
      var p, r, earned := Get(x, a), Get(PostLedger(cr, l, b), a), Earned(cr, l, b);
      && r.nonce == p.nonce && r.stake == p.stake && r.unbondAt == p.unbondAt
      && (a != REWARD_POOL && a != b.header.proposer ==> r == p)
      && (a != REWARD_POOL && a == b.header.proposer ==> r.balance == (p.balance + earned) % W64)
      && (a == REWARD_POOL && a != b.header.proposer ==>
            r.balance == if p.balance < BlockReward(b.header.height) then 0
                         else p.balance - BlockReward(b.header.height))
    ensures PostLedger(cr, l, b).names == ExecTxs(cr, l, b.txs, b.header.slot, b.header.baseFee).value.ledger.names
  {
    hide ExecTxs, BlockReward, Set, Get, Tips;
    var x := ExecTxs(cr, l, b.txs, b.header.slot, b.header.baseFee).value;
    TipsAddUp(cr, l, b.txs, b.header.slot, b.header.baseFee);
    var reward, tips := BlockReward(b.header.height), Tips(cr, l, b.txs, b.header.slot, b.header.baseFee);
    var h := Get(x.ledger, b.header.proposer);
    var paid := h.(balance := (h.balance + (reward + x.tips) % W64) % W64);
    assert paid.balance == (h.balance + Earned(cr, l, b)) % W64 by {
      ModAdd(tips, reward);
      ModAdd(reward + tips, h.balance);
    }
    SetGet(x.ledger, b.header.proposer, paid, a);
    var m := Credit(x.ledger, b.header.proposer, (reward + x.tips) % W64);
    SetGet(x.ledger, b.header.proposer, paid, REWARD_POOL);
    var q := Get(m, REWARD_POOL);
    SetGet(m, REWARD_POOL, q.(balance := if reward > q.balance then 0 else q.balance - reward), a);
    SetKeepsNames(x.ledger, b.header.proposer, paid);
    SetKeepsNames(m, REWARD_POOL, q.(balance := if reward > q.balance then 0 else q.balance - reward));
  }

  lemma SetKeepsNames(l: Ledger, a: Addr, h: Holdings)
    ensures Set(l, a, h).names == l.names
  {
  }

  // ---------------------------------------------------------------------------
  // Over runs
  // ---------------------------------------------------------------------------

  predicate Spends(cr: Crypto, b: Block, a: Bytes) {
    exists i :: 0 <= i < |b.txs| && b.txs[i].sender == a && TxVerify(cr, b.txs[i])
  }

  /** Everything the block may add to the balance of `a` fits a word. */
  predicate Fits(cr: Crypto, l: Ledger, b: Block, a: Bytes) {
    Get(l, a).balance + OfferedBy(b.txs, a) + (if b.header.proposer == a then Earned(cr, l, b) else 0) < W64
  }

  /**
   On every reachable chain a block lowers a balance only with a transaction signed by its owner, and a
   stake only with such a transaction or with evidence that its owner signed two votes at one height.
   */
  lemma OnlyItsOwnerSpends(cr: Crypto, g: Genesis, c: Chain, h: nat, a: Addr)
    requires Grown(cr, g, c) && 1 <= h < |c.blocks| && a != REWARD_POOL
    requires Fits(cr, LedgerBelow(cr, g, c, h), c.blocks[h], a)
    ensures var b, was, after := c.blocks[h], Get(LedgerBelow(cr, g, c, h), a), Get(LedgerBelow(cr, g, c, h + 1), a);
      && (after.balance < was.balance ==> Spends(cr, b, a))
      && (after.stake < was.stake ==> Spends(cr, b, a) || Convicted(cr, b.txs, a))
      && (after.nonce != was.nonce ==> Spends(cr, b, a))
  {
    hide Grown, ExecTxs, PostLedger, LedgerBelow, Get, Convicted, Earned, TxVerify;
    RewardPool.BlockFacts(cr, g, c, h);
    var b, l := c.blocks[h], LedgerBelow(cr, g, c, h);
    if Silent(b.txs, a) {
      OthersOnlyGiveAll(cr, l, b.txs, b.header.slot, b.header.baseFee, a);
      LeaderIsPaid(cr, l, b, a);
    } else {
      var i :| 0 <= i < |b.txs| && b.txs[i].sender == a;
      CommittedAreAuthorized(cr, g, c, h, i);
    }
  }

  // ---------------------------------------------------------------------------
  // Names
  // ---------------------------------------------------------------------------

  /** The block holds a registration of `name` signed by its owner `a`. */
  predicate Registers(cr: Crypto, b: Block, name: Bytes, a: Bytes) {
    exists i :: 0 <= i < |b.txs| && IsRegistration(cr, b.txs[i], name, a)
  }

  predicate IsRegistration(cr: Crypto, tx: Tx, name: Bytes, a: Bytes) {
    tx.kind == REGISTER_NAME && tx.sender == a && ParseName(tx.body) == Some(name) && TxVerify(cr, tx)
  }

  lemma NameStep(cr: Crypto, l: Ledger, tx: Tx, slot: U64, baseFee: U64, name: Bytes)
    requires ApplyTx(cr, l, tx, slot, baseFee).1.Included?
    ensures var m := ApplyTx(cr, l, tx, slot, baseFee).0.names;
      if name in l.names then name in m && m[name] == l.names[name]
      else name in m ==> m[name] == tx.sender && tx.kind == REGISTER_NAME && ParseName(tx.body) == Some(name)
  {
    hide ApplyTx, ParseSlash, ParseStake, ParseName, PerGas, Fee, DoubleVote, NameValid, ParseTransfer, Precheck;
    RewardPool.KindOf(cr, l, tx, slot, baseFee);
    if !Succeeds(cr, l, tx, slot, baseFee) {
      FailedBodyCostsOnlyFees(cr, l, tx, slot, baseFee);
    } else if tx.kind == TRANSFER {
      TransferMoves(cr, l, tx, slot, baseFee, tx.sender);
    } else if tx.kind == REGISTER_NAME {
      RegisterOwns(cr, l, tx, slot, baseFee, tx.sender);
    } else if tx.kind == SLASH_EVIDENCE {
      SlashTouches(cr, l, tx, slot, baseFee, tx.sender);
    } else {
      StakeMoves(cr, l, tx, slot, baseFee, tx.sender);
    }
  }

  lemma {:induction false} NamesInBlock(cr: Crypto, l: Ledger, b: Block, n: nat, name: Bytes)
    requires n <= |b.txs| && ExecTxs(cr, l, b.txs[..n], b.header.slot, b.header.baseFee).Some?
    ensures var m := ExecTxs(cr, l, b.txs[..n], b.header.slot, b.header.baseFee).value.ledger.names;
      if name in l.names then name in m && m[name] == l.names[name]
      else name in m ==> Registers(cr, b, name, m[name])
  {
    hide ApplyTx, TxVerify, ParseName;
    if n > 0 {
      assert b.txs[..n][..n - 1] == b.txs[..n - 1];
      NamesInBlock(cr, l, b, n - 1, name);
      var x := ExecTxs(cr, l, b.txs[..n - 1], b.header.slot, b.header.baseFee).value.ledger;
      var tx := b.txs[n - 1];
      NameStep(cr, x, tx, b.header.slot, b.header.baseFee, name);
      var m := ApplyTx(cr, x, tx, b.header.slot, b.header.baseFee).0.names;
      if name !in x.names && name in m {
        assert IsRegistration(cr, b.txs[n - 1], name, m[name]);
      }
    }
  }

  /**
   A name never changes hands: from the block in which its owner registered it, it stays with them on every
   reachable chain.
   */
  lemma NamesStay(cr: Crypto, g: Genesis, c: Chain, h: nat, name: Bytes)
    requires Grown(cr, g, c) && 1 <= h < |c.blocks|
    ensures var was, after := LedgerBelow(cr, g, c, h).names, LedgerBelow(cr, g, c, h + 1).names;
      if name in was then name in after && after[name] == was[name]
      else name in after ==> Registers(cr, c.blocks[h], name, after[name])
  {
    hide Grown, ExecTxs, PostLedger, LedgerBelow, Registers;
    RewardPool.BlockFacts(cr, g, c, h);
    var b, l := c.blocks[h], LedgerBelow(cr, g, c, h);
    assert b.txs[..|b.txs|] == b.txs;
    NamesInBlock(cr, l, b, |b.txs|, name);
    LeaderIsPaid(cr, l, b, REWARD_POOL);
  }

  /** A registered name has the same owner at every later height. */
  lemma {:induction false} OwnerIsForever(cr: Crypto, g: Genesis, c: Chain, h: nat, k: nat, name: Bytes)
    requires Grown(cr, g, c) && 1 <= h <= k <= |c.blocks| && name in LedgerBelow(cr, g, c, h).names
    ensures var was, after := LedgerBelow(cr, g, c, h).names, LedgerBelow(cr, g, c, k).names;
      name in after && after[name] == was[name]
  {
    hide Grown, LedgerBelow, Registers;
    if h < k {
      OwnerIsForever(cr, g, c, h, k - 1, name);
      NamesStay(cr, g, c, k - 1, name);
    }
  }
}
