/** What gets into the transaction pool, what it displaces and what leaves it (src/mempool.c:84-195). */
module PoolRules {
  import opened Words
  import opened Types
  import opened Codec
  import opened Ledgers
  import opened Admission
  import opened Pool

  // ---------------------------------------------------------------------------
  // Entry
  // ---------------------------------------------------------------------------

  /** What the pool says about an entry without looking at the ledger. */
  predicate Genuine(cr: Crypto, chainId: U64, e: Entry) {
    && e.hash == TxHash(cr, e.tx) && TxVerify(cr, e.tx) && e.tx.chainId == chainId && e.tx.version == 1
    && 1 <= e.tx.kind <= 5 && BaseGas(e.tx) <= e.tx.gasLimit && e.addedSlot < e.tx.validUntil
  }

  /** The funds the pool asks for, every step wrapped to a word. */
  function Asked(tx: Tx): nat {
    var sent := if tx.kind == TRANSFER && |tx.body| >= 40 then Val(tx.body[32..40]) else 0;
    (tx.gasLimit * ((1 + tx.tip) % W64) % W64 + sent) % W64
  }

  lemma AskedIsEstimate(tx: Tx)
    ensures Estimate(tx) == Asked(tx)
  {
    if |tx.body| >= 40 {
      RdIsVal(tx.body[32..40]);
    }
  }

  /** The pool looks at a transaction further if and only if it is genuine, next in line and paid for. */
  lemma LookedAtIff(cr: Crypto, chainId: U64, l: Ledger, tx: Tx, slot: U64)
    ensures Refusal(cr, chainId, l, tx, slot).None? <==>
      && Genuine(cr, chainId, Offered(cr, tx, slot)) && tx.nonce == Get(l, tx.sender).nonce
      && Asked(tx) <= Get(l, tx.sender).balance
  {
    hide TxVerify, TxHash, BaseGas, NeededGas, Estimate, Asked, IntrinsicGas;
    GasIsBase(tx);
    AskedIsEstimate(tx);
  }

  /** The fee and the amount do not wrap, and a transfer has the body of one. */
  predicate Sensible(tx: Tx) {
    && 1 + tx.tip < W64 && tx.gasLimit * (1 + tx.tip) + Sent(tx) < W64
    && (tx.kind == TRANSFER ==> |tx.body| == 40)
  }

  lemma AskedInFull(tx: Tx)
    requires Sensible(tx)
    ensures Asked(tx) == tx.gasLimit * (1 + tx.tip) + Sent(tx)
  {
    var fee := tx.gasLimit * (1 + tx.tip);
    assert (1 + tx.tip) % W64 == 1 + tx.tip;
    assert 0 <= fee < W64 by { FeeIsNat(tx); }
    if tx.kind == TRANSFER {
      assert tx.body[32..40] == tx.body[32..];
    }
  }

  lemma FeeIsNat(tx: Tx)
    ensures tx.gasLimit * (1 + tx.tip) >= 0
  {
  }

  /**
   The pool and the ledger agree: at the minimum base fee, a sensible transaction is looked at further if
   and only if it is signed and the ledger would include it.
   */
  lemma PoolAgreesWithLedger(cr: Crypto, l: Ledger, tx: Tx, slot: U64)
    requires Sensible(tx)
    ensures Refusal(cr, l.chainId, l, tx, slot).None? <==> TxVerify(cr, tx) && ApplyTx(cr, l, tx, slot, 1).1.Included?
  {
    hide TxVerify, TxHash, BaseGas, Refusal, ApplyTx, Asked, Sent;
    LookedAtIff(cr, l.chainId, l, tx, slot);
    AskedInFull(tx);
    var k := IncludedIffNothingFails(cr, l, tx, slot, 1);
    assert Price(tx, 1) == 1 + tx.tip;
    NineChecks(l, tx, slot, 1);
  }

  lemma NineChecks(l: Ledger, tx: Tx, slot: U64, baseFee: U64)
    ensures (forall j :: 0 <= j < 9 ==> !Fails(j, l, tx, slot, baseFee)) <==>
      && tx.version == 1 && tx.chainId == l.chainId && slot < tx.validUntil && tx.nonce == Get(l, tx.sender).nonce
      && 1 <= tx.kind <= 5 && BaseGas(tx) <= tx.gasLimit && tx.gasLimit * Price(tx, baseFee) < W64
      && (tx.kind == TRANSFER ==> |tx.body| == 40)
      && tx.gasLimit * Price(tx, baseFee) + Sent(tx) <= Get(l, tx.sender).balance
  {
    hide BaseGas, Sent, Price;
    if forall j :: 0 <= j < 9 ==> !Fails(j, l, tx, slot, baseFee) {
      assert !Fails(0, l, tx, slot, baseFee) && !Fails(1, l, tx, slot, baseFee) && !Fails(2, l, tx, slot, baseFee);
      assert !Fails(3, l, tx, slot, baseFee) && !Fails(4, l, tx, slot, baseFee) && !Fails(5, l, tx, slot, baseFee);
      assert !Fails(6, l, tx, slot, baseFee) && !Fails(7, l, tx, slot, baseFee) && !Fails(8, l, tx, slot, baseFee);
    }
  }

  // ---------------------------------------------------------------------------
  // Displacement
  // ---------------------------------------------------------------------------

  /** `x` bid less for the same sender and nonce. */
  predicate Outbid(x: Entry, tx: Tx) {
    SamePair(x.tx, tx) && x.tx.tip < tx.tip
  }

  /** `x` was the last of a full pool and tips less. */
  predicate Crowded(s: seq<Entry>, x: Entry, tx: Tx) {
    |s| == CAPACITY && x == s[|s| - 1] && x.tx.tip < tx.tip
  }

  lemma InsertMembers(s: seq<Entry>, e: Entry, x: Entry)
    ensures x in Insert(s, e) <==> x in s || x == e
  {
    hide Rank;
    var p := Rank(s, e.tx.tip);
    assert s == s[..p] + s[p..];
  }

  lemma WithoutMembers(s: seq<Entry>, i: nat, x: Entry)
    requires i < |s|
    ensures x in Without(s, i) ==> x in s
    ensures x in s && x != s[i] ==> x in Without(s, i)
  {
    assert s == s[..i] + [s[i]] + s[i + 1..];
  }

  lemma AdmitMembers(s: seq<Entry>, e: Entry, x: Entry)
    requires |s| <= CAPACITY
    ensures var (r, o) := Admit(s, e);
      && (o == Accepted || r == s)
      && (o == Accepted ==> e in r && (x in r ==> x in s || x == e) && (x in s && x !in r ==> Crowded(s, x, e.tx)))
      && (o != Accepted <==> |s| == CAPACITY && e.tx.tip <= s[|s| - 1].tx.tip)
  {
    hide Insert;
    InsertMembers(s, e, x);
    InsertMembers(s, e, e);
    if |s| == CAPACITY {
      var init := s[..|s| - 1];
      InsertMembers(init, e, x);
      InsertMembers(init, e, e);
      assert s == init + [s[|s| - 1]];
    }
  }

  /**
   An offer is held afterwards exactly when it was accepted, and it removes only an entry that it strictly
   outbids: the one for the same sender and nonce, or else the last of a full pool. A refusal changes
   nothing.
   */
  lemma OnlyOutbidLeave(s: seq<Entry>, e: Entry, x: Entry)
    requires Kept(s) && e !in s
    ensures var (r, o) := Place(s, e);
      && (o == Accepted <==> e in r) && (o != Accepted ==> r == s)
      && (x in r ==> x in s || x == e)
      && (x in s && x !in r ==> Outbid(x, e.tx) || Crowded(s, x, e.tx))
  {
    hide Admit, Without, ByTip, AllApart, Rank;
    var i := Rival(s, e.tx);
    if Position(s, e.hash) == |s| {
      if i == |s| {
        AdmitMembers(s, e, x);
      } else if e.tx.tip > s[i].tx.tip {
        var t := Without(s, i);
        assert |t| == |s| - 1 by { PartKept(s, i); }
        AdmitMembers(t, e, x);
        WithoutMembers(s, i, x);
      }
    }
  }

  /** A bid for the sender and nonce of an entry is taken if and only if it tips strictly more. */
  lemma ReplacedIffHigher(s: seq<Entry>, e: Entry, x: Entry)
    requires Kept(s) && x in s && SamePair(x.tx, e.tx) && forall y :: y in s ==> y.hash != e.hash
    ensures var (r, o) := Place(s, e);
      && (o == Accepted <==> x.tx.tip < e.tx.tip)
      && (o == Accepted ==> e in r && x !in r)
      && (o != Accepted ==> r == s)
  {
    hide Admit, Without, Rank, ByTip;
    var i := Rival(s, e.tx);
    var k :| 0 <= k < |s| && s[k] == x;
    assert Position(s, e.hash) == |s| by { assert forall j :: 0 <= j < |s| ==> s[j] in s; }
    assert i == k by { PairIsUnique(s, i, k); }
    if e.tx.tip > s[i].tx.tip {
      var t := Without(s, i);
      assert |t| == |s| - 1 by { PartKept(s, i); }
      AdmitMembers(t, e, x);
      Gone(s, i);
    }
  }

  lemma PairIsUnique(s: seq<Entry>, i: nat, k: nat)
    requires Kept(s) && i < |s| && k < |s| && SamePair(s[i].tx, s[k].tx)
    ensures i == k
  {
  }

  lemma Gone(s: seq<Entry>, i: nat)
    requires Kept(s) && i < |s|
    ensures s[i] !in Without(s, i)
  {
  }

  /** Removal takes out the entry with the hash and keeps all others. */
  lemma RemoveKeepsOthers(s: seq<Entry>, h: Hash, x: Entry)
    requires x in s && x.hash != h
    ensures x in Remove(s, h)
  {
    hide Without;
    if Position(s, h) < |s| {
      WithoutMembers(s, Position(s, h), x);
    }
  }

  // ---------------------------------------------------------------------------
  // Over runs
  // ---------------------------------------------------------------------------

  predicate AllGenuine(cr: Crypto, chainId: U64, s: seq<Entry>) {
    forall i :: 0 <= i < |s| ==> Genuine(cr, chainId, s[i])
  }

  lemma SubsetIsGenuine(cr: Crypto, chainId: U64, s: seq<Entry>, r: seq<Entry>)
    requires AllGenuine(cr, chainId, s) && forall x :: x in r ==> x in s
    ensures AllGenuine(cr, chainId, r)
  {
    hide Genuine;
    forall i | 0 <= i < |r| ensures Genuine(cr, chainId, r[i]) {
      assert r[i] in s;
    }
  }

  lemma AddKeepsGenuine(cr: Crypto, chainId: U64, s: seq<Entry>, l: Ledger, tx: Tx, slot: U64)
    requires AllGenuine(cr, chainId, s) && Kept(s)
    ensures AllGenuine(cr, chainId, Add(cr, chainId, s, l, tx, slot).0)
  {
    hide Genuine, Refusal, Place, Kept, Asked, Offered;
    var e := Offered(cr, tx, slot);
    if Refusal(cr, chainId, l, tx, slot).None? {
      LookedAtIff(cr, chainId, l, tx, slot);
      var r := Place(s, e).0;
      forall i | 0 <= i < |r| ensures Genuine(cr, chainId, r[i]) {
        assert r[i] in r;
        if e in s {
          HeldAlready(s, e);
          assert r[i] in s;
        } else {
          OnlyOutbidLeave(s, e, r[i]);
        }
      }
    }
  }

  lemma HeldAlready(s: seq<Entry>, e: Entry)
    requires e in s
    ensures Place(s, e).0 == s
  {
    hide Admit, Without;
  }

  /** After any operations every transaction of the pool is genuine: signed, for this chain, unexpired when it came. */
  lemma {:induction false} PoolStaysGenuine(cr: Crypto, chainId: U64, ops: seq<Op>)
    ensures AllGenuine(cr, chainId, Steps(cr, chainId, ops))
  {
    hide AllGenuine, Add, Remove, Unexpired;
    if ops == [] {
      NothingIsGenuine(cr, chainId);
    } else {
      var init, op := ops[..|ops| - 1], ops[|ops| - 1];
      PoolStaysGenuine(cr, chainId, init);
      StepsKept(cr, chainId, init);
      var s := Steps(cr, chainId, init);
      match op
      case Offer(l, tx, slot) => AddKeepsGenuine(cr, chainId, s, l, tx, slot);
      case Drop(h) =>
        forall x | x in Remove(s, h) ensures x in s { RemoveIsPart(s, h, x); }
        SubsetIsGenuine(cr, chainId, s, Remove(s, h));
      case Expire(slot) =>
        forall x | x in Unexpired(s, slot) ensures x in s { UnexpiredIsPart(s, slot, x); }
        SubsetIsGenuine(cr, chainId, s, Unexpired(s, slot));
    }
  }

  lemma NothingIsGenuine(cr: Crypto, chainId: U64)
    ensures AllGenuine(cr, chainId, [])
  {
  }

  lemma RemoveIsPart(s: seq<Entry>, h: Hash, x: Entry)
    requires x in Remove(s, h)
    ensures x in s
  {
    hide Without;
    if Position(s, h) < |s| {
      WithoutMembers(s, Position(s, h), x);
    }
  }

  lemma {:induction false} UnexpiredIsPart(s: seq<Entry>, slot: U64, x: Entry)
    ensures x in Unexpired(s, slot) <==> x in s && slot < x.tx.validUntil
  {
    if s != [] {
      UnexpiredIsPart(s[..|s| - 1], slot, x);
      assert s == s[..|s| - 1] + [s[|s| - 1]];
    }
  }
}
