/** What an executed transaction does to every account and every name (src/state.c:439-576). */
module Effects {
  import opened Words
  import opened Types
  import opened Codec
  import opened Ledgers

  /** The transaction was included and its body ran. */
  predicate Succeeds(cr: Crypto, l: Ledger, tx: Tx, slot: U64, baseFee: U64) {
    var r := ApplyTx(cr, l, tx, slot, baseFee).1;
    r.Included? && r.fault.None?
  }

  function Charge(cr: Crypto, l: Ledger, tx: Tx, slot: U64, baseFee: U64): nat
    requires ApplyTx(cr, l, tx, slot, baseFee).1.Included?
  {
    Fee(ApplyTx(cr, l, tx, slot, baseFee).1.gas, PerGas(tx, baseFee))
  }

  function Minus(balance: nat, due: nat): nat {
    if balance < due then 0 else balance - due
  }

  /** The ledger after a transaction, in terms of the effect of its body. */
  lemma AfterBody(cr: Crypto, l: Ledger, tx: Tx, slot: U64, baseFee: U64)
    requires ApplyTx(cr, l, tx, slot, baseFee).1.Included?
    ensures Precheck(l, tx, slot, baseFee).None?
    ensures var e := Body(cr, l, tx, slot, baseFee); var (after, r) := ApplyTx(cr, l, tx, slot, baseFee);
      && r.fault == e.fault && after.names == e.ledger.names
      && Get(after, tx.sender) == e.sender.(balance := Minus(e.sender.balance, Charge(cr, l, tx, slot, baseFee)))
      && forall a :: a != tx.sender ==> Get(after, a) == Get(e.ledger, a)
  {
    hide Body, Precheck, PerGas, Paid, BaseFeeDue, TipDue, Fee;
    PaidIsExact(l, tx, slot, baseFee, Body(cr, l, tx, slot, baseFee));
  }

  /** A transfer moves its amount, charges its sender and touches nobody else. */
  lemma TransferMoves(cr: Crypto, l: Ledger, tx: Tx, slot: U64, baseFee: U64, a: Bytes)
    requires Succeeds(cr, l, tx, slot, baseFee) && tx.kind == TRANSFER
    ensures ParseTransfer(tx.body).Some?
    ensures var b := ParseTransfer(tx.body).value; var after := ApplyTx(cr, l, tx, slot, baseFee).0;
      var h, due := Get(l, tx.sender), b.amount + Charge(cr, l, tx, slot, baseFee);
      && after.names == l.names && due <= h.balance
      && Get(after, a) ==
        if a == tx.sender then h.(nonce := (h.nonce + 1) % W64, balance := h.balance - due)
        else if a == b.recipient then Get(l, a).(balance := (Get(l, a).balance + b.amount) % W64)
        else Get(l, a)
  {
    hide ApplyTx, Precheck, ParseTransfer, PerGas, Fee;
    AfterBody(cr, l, tx, slot, baseFee);
    PrecheckFacts(l, tx, slot, baseFee);
    var e, b := Body(cr, l, tx, slot, baseFee), ParseTransfer(tx.body).value;
    assert e.fault.None?;
    GasIsCharged(cr, l, tx, slot, baseFee);
    MaxFeeFits(l, tx, slot, baseFee, ApplyTx(cr, l, tx, slot, baseFee).1.gas);
    var r := Get(l, b.recipient);
    SetGet(l, b.recipient, r.(balance := (r.balance + b.amount) % W64), a);
  }

  lemma PrecheckFacts(l: Ledger, tx: Tx, slot: U64, baseFee: U64)
    requires Precheck(l, tx, slot, baseFee).None?
    ensures tx.kind == TRANSFER ==> ParseTransfer(tx.body).Some?
    ensures IntrinsicGas(tx.kind).Some?
  {
    hide ParseTransfer, Fee, PerGas;
  }

  lemma GasIsCharged(cr: Crypto, l: Ledger, tx: Tx, slot: U64, baseFee: U64)
    requires ApplyTx(cr, l, tx, slot, baseFee).1.Included?
    ensures ApplyTx(cr, l, tx, slot, baseFee).1.gas <= tx.gasLimit
  {
    hide Body, Precheck, Paid, BaseFeeDue, TipDue;
  }

  /** Bonding turns balance into stake, unbonding stake into balance, and only of the sender. */
  lemma StakeMoves(cr: Crypto, l: Ledger, tx: Tx, slot: U64, baseFee: U64, a: Bytes)
    requires Succeeds(cr, l, tx, slot, baseFee) && (tx.kind == STAKE_BOND || tx.kind == STAKE_UNBOND)
    ensures ParseStake(tx.body).Some?
    ensures var amount := ParseStake(tx.body).value; var after := ApplyTx(cr, l, tx, slot, baseFee).0;
      var h, due := Get(l, tx.sender), Charge(cr, l, tx, slot, baseFee);
      && after.names == l.names
      && (a != tx.sender ==> Get(after, a) == Get(l, a))
      && amount <= (if tx.kind == STAKE_BOND then h.balance else h.stake)
      && Get(after, tx.sender) ==
        if tx.kind == STAKE_BOND then
          Holdings(Minus(h.balance - amount, due), (h.nonce + 1) % W64, (h.stake + amount) % W64, h.unbondAt)
        else
          Holdings(Minus((h.balance + amount) % W64, due), (h.nonce + 1) % W64, h.stake - amount,
                   if h.unbondAt == 0 then (slot + 1800) % W64 else h.unbondAt)
  {
    hide ApplyTx, Precheck, ParseStake, PerGas, Fee;
    AfterBody(cr, l, tx, slot, baseFee);
    PrecheckFacts(l, tx, slot, baseFee);
    var e := Body(cr, l, tx, slot, baseFee);
    assert e.fault.None?;
  }

  /** A registration gives a free, valid name to its sender for the name fee, and changes no other name. */
  lemma RegisterOwns(cr: Crypto, l: Ledger, tx: Tx, slot: U64, baseFee: U64, a: Bytes)
    requires Succeeds(cr, l, tx, slot, baseFee) && tx.kind == REGISTER_NAME
    ensures ParseName(tx.body).Some?
    ensures var name := ParseName(tx.body).value; var after := ApplyTx(cr, l, tx, slot, baseFee).0;
      var h, due := Get(l, tx.sender), Charge(cr, l, tx, slot, baseFee);
      && NameValid(name) && name !in l.names && after.names == l.names[name := tx.sender]
      && NAME_FEE <= h.balance
      && Get(after, a) ==
        if a == tx.sender then h.(nonce := (h.nonce + 1) % W64, balance := Minus(h.balance - NAME_FEE, due))
        else Get(l, a)
  {
    hide ApplyTx, Precheck, PerGas, Fee, NameValid;
    AfterBody(cr, l, tx, slot, baseFee);
    PrecheckFacts(l, tx, slot, baseFee);
    var e := Body(cr, l, tx, slot, baseFee);
    assert e.fault.None?;
  }

  /** Slashing a different account empties its stake, pays half to the reporter and touches nobody else. */
  lemma SlashTouches(cr: Crypto, l: Ledger, tx: Tx, slot: U64, baseFee: U64, a: Bytes)
    requires Succeeds(cr, l, tx, slot, baseFee) && tx.kind == SLASH_EVIDENCE
    ensures ParseSlash(tx.body).Some?
    ensures var b := ParseSlash(tx.body).value; var after := ApplyTx(cr, l, tx, slot, baseFee).0;
      var h, v, due := Get(l, tx.sender), Get(l, b.validator), Charge(cr, l, tx, slot, baseFee);
      && after.names == l.names && DoubleVote(cr, b) && v.stake > 0
      && Get(after, a) ==
        if a == tx.sender then
          h.(nonce := (h.nonce + 1) % W64, balance := Minus((h.balance + v.stake / 2) % W64, due))
        else if a == b.validator then v.(stake := 0)
        else Get(l, a)
  {
    hide ApplyTx, Precheck, ParseSlash, PerGas, Fee, DoubleVote;
    AfterBody(cr, l, tx, slot, baseFee);
    PrecheckFacts(l, tx, slot, baseFee);
    var e := Body(cr, l, tx, slot, baseFee);
    assert e.fault.None?;
    var b := ParseSlash(tx.body).value;
    SetGet(l, b.validator, Get(l, b.validator).(stake := 0), a);
  }
}
