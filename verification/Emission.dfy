/** Supply over blocks and the reward pool over whole runs (src/chain.c:439-446, 1057-1085, src/state.c:128-141). */
module Emission {
  import opened Words
  import opened Types
  import opened Codec
  import opened Market
  import opened Ledgers
  import opened Conservation
  import opened Chains

  const MAX_REWARD := 126_752

  // ---------------------------------------------------------------------------
  // One block
  // ---------------------------------------------------------------------------

  /** Every transaction is conserving on the ledger it is applied to. */
  ghost predicate AllConserving(cr: Crypto, l: Ledger, txs: seq<Tx>, slot: U64, baseFee: U64)
    requires ExecTxs(cr, l, txs, slot, baseFee).Some?
  {
    txs == [] ||
    (var init, tx := txs[..|txs| - 1], txs[|txs| - 1];
     var x := ExecTxs(cr, l, init, slot, baseFee);
     x.Some? && AllConserving(cr, l, init, slot, baseFee) &&
     Precheck(x.value.ledger, tx, slot, baseFee).None? && Conserving(cr, x.value.ledger, tx, slot, baseFee))
  }

  /** Everything the transactions burn or destroy. */
  ghost function BurntBy(cr: Crypto, l: Ledger, txs: seq<Tx>, slot: U64, baseFee: U64): nat
    requires ExecTxs(cr, l, txs, slot, baseFee).Some?
  {
    if txs == [] then 0
    else
      var init, tx := txs[..|txs| - 1], txs[|txs| - 1];
      var x := ExecTxs(cr, l, init, slot, baseFee).value;
      BurntBy(cr, l, init, slot, baseFee) +
      if Precheck(x.ledger, tx, slot, baseFee).None? then Burnt(cr, x.ledger, tx, slot, baseFee) else 0
  }

  lemma {:induction false} ExecConserves(cr: Crypto, l: Ledger, txs: seq<Tx>, slot: U64, baseFee: U64)
    requires ExecTxs(cr, l, txs, slot, baseFee).Some? && Supply(l) < W64
    requires AllConserving(cr, l, txs, slot, baseFee)
    ensures var x := ExecTxs(cr, l, txs, slot, baseFee).value;
      Supply(x.ledger) + x.tips + BurntBy(cr, l, txs, slot, baseFee) == Supply(l)
  {
    hide Supply, Conserving, Burnt, Precheck, Body, TxVerify, GasCharged, Paid, TipDue;
    if txs != [] {
      var init, tx := txs[..|txs| - 1], txs[|txs| - 1];
      ExecConserves(cr, l, init, slot, baseFee);
      var x := ExecTxs(cr, l, init, slot, baseFee).value;
      ConservedIffConserving(cr, x.ledger, tx, slot, baseFee);
    }
  }

  /** The pool, with the leader already credited, still holds the reward. */
  predicate PoolCovers(l: Ledger, proposer: Addr, height: nat, tips: U64) {
    Get(Credit(l, proposer, (BlockReward(height) + tips) % W64), REWARD_POOL).balance >= BlockReward(height)
  }

  lemma RewardIsSmall(height: nat)
    ensures 31_688 <= BlockReward(height) <= MAX_REWARD
  {
  }

  lemma CreditSupply(l: Ledger, a: Addr, amount: U64)
    requires Supply(l) + amount < W64
    ensures Supply(Credit(l, a, amount)) == Supply(l) + amount
  {
    hide Supply, Others, Set, Get;
    SupplySplit(l, a);
    SetSupply(l, a, Get(l, a).(balance := Get(l, a).balance + amount));
  }

  lemma DebitSupply(l: Ledger, a: Addr, amount: U64)
    ensures var held := Get(l, a).balance;
      Supply(Debit(l, a, amount)) == Supply(l) - if amount > held then held else amount
  {
    hide Supply, Others, Set, Get;
    SupplySplit(l, a);
    var h := Get(l, a);
    SetSupply(l, a, h.(balance := if amount > h.balance then 0 else h.balance - amount));
  }

  /** Paying the leader moves exactly the tips, if and only if the pool covers the reward. */
  lemma PayLeaderSupply(l: Ledger, proposer: Addr, height: nat, tips: U64)
    requires Supply(l) + tips + MAX_REWARD < W64
    ensures Supply(PayLeader(l, proposer, height, tips)) >= Supply(l) + tips
    ensures Supply(PayLeader(l, proposer, height, tips)) == Supply(l) + tips <==> PoolCovers(l, proposer, height, tips)
  {
    hide Supply, BlockReward, Credit, Debit, Get;
    RewardIsSmall(height);
    var reward := BlockReward(height);
    CreditSupply(l, proposer, reward + tips);
    DebitSupply(Credit(l, proposer, reward + tips), REWARD_POOL, reward);
  }

  /**
   A block of conserving transactions lowers the supply by the burns and the unrewarded slashed parts
   alone, if and only if the pool covers the reward.
   */
  lemma BlockConservesIffPoolCovers(cr: Crypto, l: Ledger, b: Block)
    requires ExecTxs(cr, l, b.txs, b.header.slot, b.header.baseFee).Some?
    requires AllConserving(cr, l, b.txs, b.header.slot, b.header.baseFee)
    requires Supply(l) + MAX_REWARD < W64
    ensures var x := ExecTxs(cr, l, b.txs, b.header.slot, b.header.baseFee).value;
      Supply(PostLedger(cr, l, b)) + BurntBy(cr, l, b.txs, b.header.slot, b.header.baseFee) == Supply(l)
      <==> PoolCovers(x.ledger, b.header.proposer, b.header.height, x.tips)
  {
    hide Supply, ExecTxs, AllConserving, BurntBy, PayLeader, PoolCovers;
    ExecConserves(cr, l, b.txs, b.header.slot, b.header.baseFee);
    var x := ExecTxs(cr, l, b.txs, b.header.slot, b.header.baseFee).value;
    PayLeaderSupply(x.ledger, b.header.proposer, b.header.height, x.tips);
  }

  // ---------------------------------------------------------------------------
  // Balances of others
  // ---------------------------------------------------------------------------

  lemma TransferOthersGain(l: Ledger, tx: Tx, sender: Holdings, a: Addr)
    requires tx.kind == TRANSFER && ParseTransfer(tx.body).Some? && Value(tx) <= sender.balance
    requires Supply(l) < W64 && a != tx.sender && sender.balance <= Get(l, tx.sender).balance
    ensures Get(Transfer(l, tx, sender).ledger, a).balance >= Get(l, a).balance
  {
    hide ParseTransfer, Supply, Others, NeededGas, Get, Set;
    SupplySplit(l, tx.sender);
    OthersBound(l, tx.sender, a);
    var b := ParseTransfer(tx.body).value;
    var r := Get(l, b.recipient);
    SetGet(l, b.recipient, r.(balance := (r.balance + b.amount) % W64), a);
  }

  lemma BodyOthersGain(cr: Crypto, l: Ledger, tx: Tx, slot: U64, baseFee: U64, a: Addr)
    requires Precheck(l, tx, slot, baseFee).None? && Supply(l) < W64 && a != tx.sender
    ensures Get(Body(cr, l, tx, slot, baseFee).ledger, a).balance >= Get(l, a).balance
  {
    hide PerGas, Fee, ParseTransfer, ParseSlash, ParseName, ParseStake, DoubleVote, Supply, NeededGas, Transfer;
    if tx.kind == TRANSFER {
      var h := Get(l, tx.sender);
      TransferOthersGain(l, tx, h.(nonce := (h.nonce + 1) % W64), a);
    }
  }

  /** Nobody but the sender ever loses balance to a transaction. */
  lemma OthersNeverLose(cr: Crypto, l: Ledger, tx: Tx, slot: U64, baseFee: U64, a: Addr)
    requires Precheck(l, tx, slot, baseFee).None? && Supply(l) < W64 && a != tx.sender
    ensures Get(ApplyTx(cr, l, tx, slot, baseFee).0, a).balance >= Get(l, a).balance
  {
    hide Body, Precheck, Paid, Supply, BaseFeeDue, TipDue;
    BodyOthersGain(cr, l, tx, slot, baseFee, a);
  }
}
