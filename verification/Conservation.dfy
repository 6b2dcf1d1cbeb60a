/** Conservation of supply over one transaction (src/state.c:373-576). */
module Conservation {
  import opened Words
  import opened Types
  import opened Codec
  import opened Table
  import opened Ledgers

  function Worth(h: Holdings): nat {
    h.balance + h.stake
  }

  /** All balances and stakes together. */
  ghost function Supply(l: Ledger): nat {
    Total(l.accounts, Worth)
  }

  /** Everything outside account `a`. */
  ghost function Others(l: Ledger, a: Bytes): nat {
    Total(l.accounts - {a}, Worth)
  }

  lemma SupplySplit(l: Ledger, a: Bytes)
    ensures Supply(l) == Worth(Get(l, a)) + Others(l, a)
  {
    TotalAbsent(l.accounts, Worth, a);
  }

  lemma SetSupply(l: Ledger, a: Addr, h: Holdings)
    ensures Supply(Set(l, a, h)) == Worth(h) + Others(l, a)
  {
    hide Total, Worth;
    SupplySplit(Set(l, a, h), a);
    SetGet(l, a, h, a);
    assert Set(l, a, h).accounts - {a} == l.accounts - {a};
  }

  /** Writing account `b` moves what lies outside `a` by exactly what `b` gained or lost. */
  lemma SetOthers(l: Ledger, a: Bytes, b: Addr, h: Holdings)
    ensures a == b ==> Others(Set(l, b, h), a) == Others(l, a)
    ensures a != b ==> Others(Set(l, b, h), a) + Worth(Get(l, b)) == Others(l, a) + Worth(h)
  {
    hide Total;
    if a == b {
      assert Set(l, b, h).accounts - {a} == l.accounts - {a};
    } else {
      TotalOutside(l.accounts, Worth, a, b, h);
    }
  }

  lemma OthersBound(l: Ledger, a: Bytes, b: Bytes)
    requires a != b
    ensures Worth(Get(l, b)) <= Others(l, a)
  {
    TotalAbsent(l.accounts - {a}, Worth, b);
  }

  // ---------------------------------------------------------------------------
  // Where conservation can break
  // ---------------------------------------------------------------------------

  /** The sender pays itself a positive amount: the local copy overwrites the credit. */
  predicate SelfPayment(tx: Tx, e: Effect) {
    && tx.kind == TRANSFER && e.fault.None? && ParseTransfer(tx.body).Some?
    && ParseTransfer(tx.body).value.recipient == tx.sender && Value(tx) > 0
  }

  /** The sender reports itself: the local copy restores the slashed stake. */
  predicate SelfSlash(tx: Tx, e: Effect) {
    && tx.kind == SLASH_EVIDENCE && e.fault.None? && ParseSlash(tx.body).Some?
    && ParseSlash(tx.body).value.validator == tx.sender
  }

  /** The balance left by the body covers both fees, added without wrapping. */
  predicate FeesCovered(tx: Tx, e: Effect, baseFee: U64) {
    BaseFeeDue(e, tx, baseFee) + TipDue(e, tx) <= e.sender.balance
  }

  predicate Conserving(cr: Crypto, l: Ledger, tx: Tx, slot: U64, baseFee: U64)
    requires Precheck(l, tx, slot, baseFee).None?
  {
    var e := Body(cr, l, tx, slot, baseFee);
    !SelfPayment(tx, e) && !SelfSlash(tx, e) && FeesCovered(tx, e, baseFee)
  }

  /** By how much the body alone changes the supply, once burns and destroyed stake are added back. */
  function Drift(l: Ledger, tx: Tx, e: Effect): int {
    if SelfPayment(tx, e) then 0 - Value(tx)
    else if SelfSlash(tx, e) then Get(l, tx.sender).stake
    else 0
  }

  lemma TransferDrift(l: Ledger, tx: Tx, sender: Holdings)
    requires tx.kind == TRANSFER && ParseTransfer(tx.body).Some? && Value(tx) <= sender.balance
    requires Supply(l) < W64 && Worth(sender) == Worth(Get(l, tx.sender))
    ensures var e := Transfer(l, tx, sender);
      Others(e.ledger, tx.sender) + Worth(e.sender) == Supply(l) + Drift(l, tx, e)
    ensures var e := Transfer(l, tx, sender); e.burn == e.destroyed == 0
  {
    hide Others, Supply, ParseTransfer, NeededGas, Set, Get;
    SupplySplit(l, tx.sender);
    var b := ParseTransfer(tx.body).value;
    var r := Get(l, b.recipient);
    SetOthers(l, tx.sender, b.recipient, r.(balance := (r.balance + b.amount) % W64));
    if b.recipient != tx.sender {
      OthersBound(l, tx.sender, b.recipient);
    }
  }

  lemma SlashDrift(cr: Crypto, l: Ledger, tx: Tx, sender: Holdings)
    requires tx.kind == SLASH_EVIDENCE
    requires Supply(l) < W64 && sender.balance == Get(l, tx.sender).balance && sender.stake == Get(l, tx.sender).stake
    ensures var e := Slash(cr, l, tx, sender);
      Others(e.ledger, tx.sender) + Worth(e.sender) + e.destroyed == Supply(l) + Drift(l, tx, e)
    ensures Slash(cr, l, tx, sender).burn == 0
  {
    hide Others, Supply, ParseSlash, NeededGas, DoubleVote, Set, Get, IntrinsicGas;
    SupplySplit(l, tx.sender);
    if ParseSlash(tx.body).Some? {
      var b := ParseSlash(tx.body).value;
      SetOthers(l, tx.sender, b.validator, Get(l, b.validator).(stake := 0));
      HalvesAdd(Get(l, b.validator).stake);
      if b.validator != tx.sender {
        OthersBound(l, tx.sender, b.validator);
      }
    }
  }

  lemma HalvesAdd(stake: U64)
    ensures 0 <= stake / 2 <= stake
  {
  }

  lemma SelfContainedDrift(cr: Crypto, l: Ledger, tx: Tx, slot: U64, baseFee: U64)
    requires Precheck(l, tx, slot, baseFee).None? && Supply(l) < W64
    requires tx.kind == STAKE_BOND || tx.kind == STAKE_UNBOND || tx.kind == REGISTER_NAME
    ensures var e := Body(cr, l, tx, slot, baseFee);
      Others(e.ledger, tx.sender) + Worth(e.sender) + e.burn == Supply(l) && e.destroyed == 0
  {
    hide Supply, Total, ParseStake, ParseName, Precheck, Get, NeededGas, ParseTransfer, ParseSlash;
    SupplySplit(l, tx.sender);
  }

  lemma BodyDrift(cr: Crypto, l: Ledger, tx: Tx, slot: U64, baseFee: U64)
    requires Precheck(l, tx, slot, baseFee).None? && Supply(l) < W64
    ensures var e := Body(cr, l, tx, slot, baseFee);
      Others(e.ledger, tx.sender) + Worth(e.sender) + e.burn + e.destroyed == Supply(l) + Drift(l, tx, e)
  {
    hide Others, Supply, ParseTransfer, ParseSlash, Transfer, Slash, Bond, Unbond, Register, Get, PerGas, Fee,
      NeededGas;
    var h := Get(l, tx.sender);
    var sender := h.(nonce := (h.nonce + 1) % W64);
    if tx.kind == TRANSFER {
      TransferDrift(l, tx, sender);
    } else if tx.kind == SLASH_EVIDENCE {
      SlashDrift(cr, l, tx, sender);
    } else {
      SelfContainedDrift(cr, l, tx, slot, baseFee);
    }
  }

  // ---------------------------------------------------------------------------
  // The law
  // ---------------------------------------------------------------------------

  /** What an included transaction takes out of circulation besides the tip. */
  function Burnt(cr: Crypto, l: Ledger, tx: Tx, slot: U64, baseFee: U64): nat
    requires Precheck(l, tx, slot, baseFee).None?
  {
    var e := Body(cr, l, tx, slot, baseFee);
    e.burn + BaseFeeDue(e, tx, baseFee) + e.destroyed
  }

  /** The supply after an included transaction, in every case. */
  lemma SupplyAfter(cr: Crypto, l: Ledger, tx: Tx, slot: U64, baseFee: U64)
    requires Precheck(l, tx, slot, baseFee).None? && Supply(l) < W64
    ensures var e := Body(cr, l, tx, slot, baseFee);
      Supply(ApplyTx(cr, l, tx, slot, baseFee).0) + Paid(e, tx, baseFee) + e.burn + e.destroyed == Supply(l) +
        Drift(l, tx, e)
  {
    hide Body, Paid, Others, Supply, Drift, Set, Precheck, TipDue, BaseFeeDue;
    var e := Body(cr, l, tx, slot, baseFee);
    BodyDrift(cr, l, tx, slot, baseFee);
    SetSupply(e.ledger, tx.sender, e.sender.(balance := e.sender.balance - Paid(e, tx, baseFee)));
  }

  /** What is paid equals what is due exactly when the post-body balance covers it. */
  lemma PaidWhenCovered(l: Ledger, tx: Tx, slot: U64, baseFee: U64, e: Effect)
    requires Precheck(l, tx, slot, baseFee).None?
    ensures var due := BaseFeeDue(e, tx, baseFee) + TipDue(e, tx); var paid := Paid(e, tx, baseFee);
      && paid <= due && (paid == due <==> FeesCovered(tx, e, baseFee))
  {
    hide Fee, Precheck;
    MaxFeeFits(l, tx, slot, baseFee, GasCharged(e, tx));
    FeeSplit(GasCharged(e, tx), baseFee, tx.tip);
  }

  /** A self-payment is never short of fees, and never loses exactly a full wrap. */
  lemma SelfPaymentLoses(cr: Crypto, l: Ledger, tx: Tx, slot: U64, baseFee: U64)
    requires Precheck(l, tx, slot, baseFee).None? && SelfPayment(tx, Body(cr, l, tx, slot, baseFee))
    ensures var e := Body(cr, l, tx, slot, baseFee);
      Paid(e, tx, baseFee) + Value(tx) != BaseFeeDue(e, tx, baseFee) + TipDue(e, tx)
  {
    hide Fee, Precheck, ParseTransfer;
    var e := Body(cr, l, tx, slot, baseFee);
    MaxFeeFits(l, tx, slot, baseFee, GasCharged(e, tx));
    FeeSplit(GasCharged(e, tx), baseFee, tx.tip);
  }

  /**
   Supply conservation: the total falls by exactly the burn, the tip and the unrewarded part of a
   slashed stake, if and only if the transaction is conserving.
   */
  lemma ConservedIffConserving(cr: Crypto, l: Ledger, tx: Tx, slot: U64, baseFee: U64)
    requires Precheck(l, tx, slot, baseFee).None? && Supply(l) < W64
    ensures var after := ApplyTx(cr, l, tx, slot, baseFee).0; var e := Body(cr, l, tx, slot, baseFee);
      (Supply(after) + Burnt(cr, l, tx, slot, baseFee) + TipDue(e, tx) == Supply(l))
      <==> Conserving(cr, l, tx, slot, baseFee)
  {
    hide Body, Paid, Supply, Precheck, TipDue, BaseFeeDue, FeesCovered, ApplyTx;
    var e := Body(cr, l, tx, slot, baseFee);
    SupplyAfter(cr, l, tx, slot, baseFee);
    PaidWhenCovered(l, tx, slot, baseFee, e);
    if SelfPayment(tx, e) {
      SelfPaymentLoses(cr, l, tx, slot, baseFee);
    } else if SelfSlash(tx, e) {
      SelfSlashStake(cr, l, tx, slot, baseFee);
    }
  }

  lemma SelfSlashStake(cr: Crypto, l: Ledger, tx: Tx, slot: U64, baseFee: U64)
    requires Precheck(l, tx, slot, baseFee).None? && SelfSlash(tx, Body(cr, l, tx, slot, baseFee))
    ensures Get(l, tx.sender).stake > 0
  {
    hide ParseSlash, Precheck, DoubleVote;
  }

  /** Supply can only fall when the fees are covered and nobody slashes itself. */
  lemma SupplyFalls(cr: Crypto, l: Ledger, tx: Tx, slot: U64, baseFee: U64)
    requires Precheck(l, tx, slot, baseFee).None? && Supply(l) < W64
    requires var e := Body(cr, l, tx, slot, baseFee); !SelfSlash(tx, e) && FeesCovered(tx, e, baseFee)
    ensures var (after, r) := ApplyTx(cr, l, tx, slot, baseFee); r.Included? && Supply(after) + r.tip <= Supply(l)
  {
    hide Body, Paid, Supply, Precheck, TipDue, BaseFeeDue, FeesCovered;
    SupplyAfter(cr, l, tx, slot, baseFee);
    PaidWhenCovered(l, tx, slot, baseFee, Body(cr, l, tx, slot, baseFee));
  }

  lemma UnbondLeaves(l: Ledger, tx: Tx, slot: U64, sender: Holdings)
    requires tx.kind == STAKE_UNBOND && Worth(sender) < W64
    ensures sender.balance <= Unbond(l, tx, slot, sender).sender.balance
  {
    hide ParseStake, NeededGas;
  }

  lemma SlashLeaves(cr: Crypto, l: Ledger, tx: Tx, sender: Holdings)
    requires tx.kind == SLASH_EVIDENCE && Supply(l) < W64
    requires sender.balance == Get(l, tx.sender).balance
    ensures sender.balance <= Slash(cr, l, tx, sender).sender.balance
  {
    hide ParseSlash, NeededGas, DoubleVote, Set, Supply, Others;
    SupplySplit(l, tx.sender);
    if ParseSlash(tx.body).Some? && ParseSlash(tx.body).value.validator != tx.sender {
      OthersBound(l, tx.sender, ParseSlash(tx.body).value.validator);
    }
  }

  lemma BodyLeaves(cr: Crypto, l: Ledger, tx: Tx, slot: U64, baseFee: U64)
    requires Precheck(l, tx, slot, baseFee).None? && Supply(l) < W64
    requires var e := Body(cr, l, tx, slot, baseFee);
      e.fault.Some? || tx.kind == TRANSFER || tx.kind == STAKE_UNBOND || tx.kind == SLASH_EVIDENCE
    ensures Get(l, tx.sender).balance <= Body(cr, l, tx, slot, baseFee).sender.balance + Value(tx)
  {
    hide PerGas, Fee, ParseTransfer, Supply, Others, NeededGas, Get, Bond, Unbond, Register, Slash, Credit;
    BodyShape(cr, l, tx, slot, baseFee);
    SupplySplit(l, tx.sender);
    var h := Get(l, tx.sender);
    var sender := h.(nonce := (h.nonce + 1) % W64);
    if tx.kind == STAKE_UNBOND {
      UnbondLeaves(l, tx, slot, sender);
    } else if tx.kind == SLASH_EVIDENCE {
      SlashLeaves(cr, l, tx, sender);
    }
  }

  /**
   Fees are covered automatically when the price per gas does not wrap and the body did not spend
   the balance: transfers, unbonding, slashing, and every body that failed.
   */
  lemma CoveredAutomatically(cr: Crypto, l: Ledger, tx: Tx, slot: U64, baseFee: U64)
    requires Precheck(l, tx, slot, baseFee).None? && Supply(l) < W64
    requires baseFee + tx.tip < W64
    requires var e := Body(cr, l, tx, slot, baseFee);
      e.fault.Some? || tx.kind == TRANSFER || tx.kind == STAKE_UNBOND || tx.kind == SLASH_EVIDENCE
    ensures FeesCovered(tx, Body(cr, l, tx, slot, baseFee), baseFee)
  {
    hide Fee, Precheck, Supply, Body, Value;
    var e := Body(cr, l, tx, slot, baseFee);
    MaxFeeFits(l, tx, slot, baseFee, GasCharged(e, tx));
    FeeSplit(GasCharged(e, tx), baseFee, tx.tip);
    BodyLeaves(cr, l, tx, slot, baseFee);
  }

  // ---------------------------------------------------------------------------
  // Concrete breaches of unconditional conservation
  // ---------------------------------------------------------------------------

  function Sample(kind: Byte, a: Addr, tip: U64, body: Bytes): Tx
    requires |body| <= BODY_MAX
  {
    RawTx.Tx(TX_VERSION, 7, kind, a, 0, 100, tip, 10, body, [], ZERO_SIG)
  }

  /** Bonding the whole balance leaves the fees unpaid although the tip is still reported. */
  lemma BondingAllLeavesFeesUnpaid(cr: Crypto, a: Addr)
    ensures var l := Ledger(7, map[a := Holdings(1000, 0, 0, 0)], map[]);
      var tx := Sample(STAKE_BOND, a, 1, Be64(1000));
      && Precheck(l, tx, 0, 1).None?
      && var (after, r) := ApplyTx(cr, l, tx, 0, 1);
        r == Included(None, 51, 51, 51) && Get(after, a) == Holdings(0, 1, 1000, 0)
  {
    Rd64Be64(1000);
  }

  /** A tip that wraps the price per gas is reported in full but costs nothing. */
  lemma WrappedPriceIsFree(cr: Crypto, a: Addr)
    ensures var l := Ledger(7, map[a := Holdings(1000, 0, 1, 0)], map[]);
      var tx := Sample(STAKE_UNBOND, a, W64 - 1, Be64(1));
      && Precheck(l, tx, 0, 1).None?
      && var (after, r) := ApplyTx(cr, l, tx, 0, 1);
        r == Included(None, 51, 51, W64 - 51) && Get(after, a).balance == 1001
  {
    Rd64Be64(1);
  }

  /** Paying oneself burns the amount. */
  lemma SelfPaymentBurns(cr: Crypto, a: Addr)
    ensures var l := Ledger(7, map[a := Holdings(1000, 0, 0, 0)], map[]);
      var tx := Sample(TRANSFER, a, 0, TransferBytes(TransferBody(a, 500)));
      && Precheck(l, tx, 0, 1).None?
      && var (after, r) := ApplyTx(cr, l, tx, 0, 1);
        r == Included(None, 21, 21, 0) && Get(after, a).balance == 1000 - 500 - 21
  {
    TransferRoundTrip(TransferBody(a, 500));
  }
}
