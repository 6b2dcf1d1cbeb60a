/**
 Which transactions the ledger takes, what their bodies need and what they cost (src/state.c:373-567;
 sections 5.2 to 5.4 of PROTOCOL.md).
 */
module Admission {
  import opened Words
  import opened Types
  import opened Codec
  import opened Ledgers
  import opened Effects

  // ---------------------------------------------------------------------------
  // Admission
  // ---------------------------------------------------------------------------

  /** The gas schedule: 21 for anything, more by kind, one per memo byte. */
  function BaseGas(tx: Tx): nat {
    21 + |tx.memo| +
    (if tx.kind == STAKE_BOND || tx.kind == STAKE_UNBOND then 30
     else if tx.kind == REGISTER_NAME then 200
     else if tx.kind == SLASH_EVIDENCE then 500
     else 0)
  }

  /** The price per unit of gas, wrapped to a word. */
  function Price(tx: Tx, baseFee: U64): nat {
    if baseFee + tx.tip < W64 then baseFee + tx.tip else baseFee + tx.tip - W64
  }

  function Sent(tx: Tx): nat {
    if tx.kind == TRANSFER && |tx.body| == 40 then Val(tx.body[32..]) else 0
  }

  /** The nine things that can keep a transaction out, in the order they are looked at. */
  predicate Fails(k: nat, l: Ledger, tx: Tx, slot: U64, baseFee: U64) {
    match k
    case 0 => tx.version != 1
    case 1 => tx.chainId != l.chainId
    case 2 => tx.validUntil <= slot
    case 3 => tx.nonce != Get(l, tx.sender).nonce
    case 4 => tx.kind == 0 || tx.kind > 5
    case 5 => tx.gasLimit < BaseGas(tx)
    case 6 => tx.gasLimit * Price(tx, baseFee) >= W64
    case 7 => tx.kind == TRANSFER && |tx.body| != 40
    case 8 => tx.gasLimit * Price(tx, baseFee) + Sent(tx) > Get(l, tx.sender).balance
    case _ => false
  }

  const FAULTS: seq<Fault> :=
    [BadVersion, WrongChain, Expired, BadNonce, UnknownKind, GasTooLow, FeeOverflow, BadBody, InsufficientBalance]

  /** `k` is the first check that fails; 9 when none does. */
  ghost predicate FirstFailure(k: nat, l: Ledger, tx: Tx, slot: U64, baseFee: U64) {
    k <= 9 && (k < 9 ==> Fails(k, l, tx, slot, baseFee)) && forall j :: 0 <= j < k ==> !Fails(j, l, tx, slot, baseFee)
  }

  /** The division guard of the code is the overflow test it stands for. */
  lemma GuardIsOverflow(gas: nat, price: nat)
    ensures (price != 0 && gas > (W64 - 1) / price) <==> gas * price >= W64
  {
    if price != 0 {
      var q := (W64 - 1) / price;
      assert q * price <= W64 - 1 < q * price + price;
      if gas > q {
        MulMonotone(q + 1, gas, price);
        Distribute(q, 1, price);
      } else {
        MulMonotone(gas, q, price);
      }
    }
  }

  lemma PriceIsPerGas(tx: Tx, baseFee: U64)
    ensures PerGas(tx, baseFee) == Price(tx, baseFee)
  {
  }

  lemma SentIsValue(tx: Tx)
    ensures Value(tx) == Sent(tx)
  {
    if |tx.body| == 40 {
      RdIsVal(tx.body[32..]);
    }
  }

  lemma RdIsVal(s: Bytes)
    requires |s| == 8
    ensures Rd64(s) == Val(s)
  {
  }

  lemma GasIsBase(tx: Tx)
    ensures IntrinsicGas(tx.kind).Some? <==> 1 <= tx.kind <= 5
    ensures IntrinsicGas(tx.kind).Some? ==> NeededGas(tx) == BaseGas(tx)
  {
  }

  /**
   A transaction is included exactly when none of the nine conditions fails; otherwise it leaves no
   trace, and the reason given is the first that does.
   */
  lemma IncludedIffNothingFails(cr: Crypto, l: Ledger, tx: Tx, slot: U64, baseFee: U64) returns (k: nat)
    ensures FirstFailure(k, l, tx, slot, baseFee)
    ensures var (after, r) := ApplyTx(cr, l, tx, slot, baseFee);
      && (r.Included? <==> k == 9)
      && (k < 9 ==> after == l && r == Rejected(FAULTS[k]))
  {
    hide Body, PerGas, Value, NeededGas, IntrinsicGas, BaseGas, Price, Sent, Fee, ParseTransfer, Paid, GasCharged;
    PriceIsPerGas(tx, baseFee);
    SentIsValue(tx);
    GasIsBase(tx);
    GuardIsOverflow(tx.gasLimit, Price(tx, baseFee));
    assert Fee(tx.gasLimit, Price(tx, baseFee)) == tx.gasLimit * Price(tx, baseFee) by { FeeIs(tx, baseFee); }
    assert ParseTransfer(tx.body).None? <==> |tx.body| != 40 by { ParsesAt40(tx.body); }
    k := if tx.version != TX_VERSION then 0
         else if tx.chainId != l.chainId then 1
         else if slot >= tx.validUntil then 2
         else if tx.nonce != Get(l, tx.sender).nonce then 3
         else if IntrinsicGas(tx.kind).None? then 4
         else if tx.gasLimit < BaseGas(tx) then 5
         else if tx.gasLimit * Price(tx, baseFee) >= W64 then 6
         else if tx.kind == TRANSFER && |tx.body| != 40 then 7
         else if tx.gasLimit * Price(tx, baseFee) + Sent(tx) > Get(l, tx.sender).balance then 8
         else 9;
  }

  lemma FeeIs(tx: Tx, baseFee: U64)
    ensures Fee(tx.gasLimit, Price(tx, baseFee)) == tx.gasLimit * Price(tx, baseFee)
  {
  }

  lemma ParsesAt40(body: Bytes)
    ensures ParseTransfer(body).None? <==> |body| != 40
  {
  }

  /** What inclusion establishes about the transaction itself. */
  lemma IncludedIsCurrent(cr: Crypto, l: Ledger, tx: Tx, slot: U64, baseFee: U64)
    requires ApplyTx(cr, l, tx, slot, baseFee).1.Included?
    ensures tx.version == 1 && tx.chainId == l.chainId && slot < tx.validUntil && 1 <= tx.kind <= 5
    ensures ApplyTx(cr, l, tx, slot, baseFee).0.chainId == l.chainId
  {
    hide ApplyTx;
    var k := IncludedIffNothingFails(cr, l, tx, slot, baseFee);
    assert !Fails(0, l, tx, slot, baseFee) && !Fails(1, l, tx, slot, baseFee) && !Fails(2, l, tx, slot, baseFee);
    assert !Fails(4, l, tx, slot, baseFee);
    KeepsChainId(cr, l, tx, slot, baseFee);
  }

  lemma KeepsChainId(cr: Crypto, l: Ledger, tx: Tx, slot: U64, baseFee: U64)
    ensures ApplyTx(cr, l, tx, slot, baseFee).0.chainId == l.chainId
  {
    hide Body, Precheck, Paid, BaseFeeDue, TipDue;
    if Precheck(l, tx, slot, baseFee).None? {
      BodyShape(cr, l, tx, slot, baseFee);
    }
  }

  // ---------------------------------------------------------------------------
  // Bodies and gas
  // ---------------------------------------------------------------------------

  /** Storing a new recipient costs 50 more. */
  function FullGas(l: Ledger, tx: Tx): nat {
    BaseGas(tx) + if tx.kind == TRANSFER && |tx.body| == 40 && tx.body[..32] !in l.accounts then 50 else 0
  }

  /** What each kind asks beyond admission. */
  predicate Runs(cr: Crypto, l: Ledger, tx: Tx) {
    var h := Get(l, tx.sender);
    if tx.kind == TRANSFER then FullGas(l, tx) <= tx.gasLimit
    else if tx.kind == STAKE_BOND then |tx.body| == 8 && Val(tx.body) <= h.balance
    else if tx.kind == STAKE_UNBOND then |tx.body| == 8 && Val(tx.body) <= h.stake
    else if tx.kind == REGISTER_NAME then
      && |tx.body| >= 1 && tx.body[0] == |tx.body| - 1 && NameValid(tx.body[1..]) && tx.body[1..] !in l.names
      && NAME_FEE <= h.balance
    else
      && ParseSlash(tx.body).Some? && DoubleVote(cr, ParseSlash(tx.body).value)
      && Get(l, ParseSlash(tx.body).value.validator).stake > 0
  }

  lemma TransferRuns(l: Ledger, tx: Tx, sender: Holdings)
    requires tx.kind == TRANSFER && ParseTransfer(tx.body).Some? && Value(tx) <= sender.balance
    ensures var e := Transfer(l, tx, sender);
      && (e.fault.None? <==> FullGas(l, tx) <= tx.gasLimit) && e.gas == FullGas(l, tx)
  {
    GasIsBase(tx);
  }

  lemma BondRuns(l: Ledger, tx: Tx, slot: U64, sender: Holdings)
    ensures tx.kind == STAKE_BOND ==> var e := Bond(l, tx, sender);
      && (e.fault.None? <==> |tx.body| == 8 && Val(tx.body) <= sender.balance) && e.gas == BaseGas(tx)
    ensures tx.kind == STAKE_UNBOND ==> var e := Unbond(l, tx, slot, sender);
      && (e.fault.None? <==> |tx.body| == 8 && Val(tx.body) <= sender.stake) && e.gas == BaseGas(tx)
  {
    GasIsBase(tx);
    if |tx.body| == 8 {
      RdIsVal(tx.body);
    }
  }

  lemma RegisterRuns(l: Ledger, tx: Tx, sender: Holdings)
    requires tx.kind == REGISTER_NAME
    ensures var e := Register(l, tx, sender);
      && (e.fault.None? <==>
          && |tx.body| >= 1 && tx.body[0] == |tx.body| - 1 && NameValid(tx.body[1..]) && tx.body[1..] !in l.names
          && NAME_FEE <= sender.balance)
      && e.gas == BaseGas(tx)
  {
    GasIsBase(tx);
  }

  lemma SlashRuns(cr: Crypto, l: Ledger, tx: Tx, sender: Holdings)
    requires tx.kind == SLASH_EVIDENCE
    ensures var e := Slash(cr, l, tx, sender);
      && (e.fault.None? <==>
          && ParseSlash(tx.body).Some? && DoubleVote(cr, ParseSlash(tx.body).value)
          && Get(l, ParseSlash(tx.body).value.validator).stake > 0)
      && e.gas == BaseGas(tx)
  {
    hide ParseSlash;
    GasIsBase(tx);
  }

  /** An included transaction does what it says exactly when its kind's conditions hold, and its gas is exact. */
  lemma SucceedsIffRuns(cr: Crypto, l: Ledger, tx: Tx, slot: U64, baseFee: U64)
    requires ApplyTx(cr, l, tx, slot, baseFee).1.Included?
    ensures Succeeds(cr, l, tx, slot, baseFee) <==> Runs(cr, l, tx)
    ensures var gas := ApplyTx(cr, l, tx, slot, baseFee).1.gas;
      gas == if FullGas(l, tx) <= tx.gasLimit then FullGas(l, tx) else tx.gasLimit
  {
    hide Transfer, Bond, Unbond, Register, Slash, NameValid, ParseSlash, DoubleVote, BaseGas, Paid, BaseFeeDue, TipDue,
      Precheck, Value, ParseTransfer;
    AfterBody(cr, l, tx, slot, baseFee);
    var k := IncludedIffNothingFails(cr, l, tx, slot, baseFee);
    assert !Fails(4, l, tx, slot, baseFee);
    var sender := Get(l, tx.sender).(nonce := (Get(l, tx.sender).nonce + 1) % W64);
    if tx.kind == TRANSFER {
      MaxFeeFits(l, tx, slot, baseFee, 0);
      PrecheckFacts(l, tx, slot, baseFee);
      TransferRuns(l, tx, sender);
    } else if tx.kind == REGISTER_NAME {
      RegisterRuns(l, tx, sender);
    } else if tx.kind == SLASH_EVIDENCE {
      SlashRuns(cr, l, tx, sender);
    } else {
      BondRuns(l, tx, slot, sender);
    }
  }

  /** What the receipt reports: base fee and name fee as burned, and the tip, each wrapped to a word. */
  lemma ReceiptIs(cr: Crypto, l: Ledger, tx: Tx, slot: U64, baseFee: U64)
    requires ApplyTx(cr, l, tx, slot, baseFee).1.Included?
    ensures var r := ApplyTx(cr, l, tx, slot, baseFee).1;
      var name := if tx.kind == REGISTER_NAME && Runs(cr, l, tx) then NAME_FEE else 0;
      r.burned == (name + Fee(r.gas, baseFee) % W64) % W64 && r.tip == Fee(r.gas, tx.tip) % W64
  {
    hide NameValid, ParseSlash, DoubleVote, Precheck, Paid, ParseTransfer, ParseStake, ParseName, Runs, Value, Fee;
    SucceedsIffRuns(cr, l, tx, slot, baseFee);
    AfterBody(cr, l, tx, slot, baseFee);
    BurnIs(cr, l, tx, slot, baseFee);
  }

  lemma BurnIs(cr: Crypto, l: Ledger, tx: Tx, slot: U64, baseFee: U64)
    requires Precheck(l, tx, slot, baseFee).None?
    ensures var e := Body(cr, l, tx, slot, baseFee);
      e.burn == if tx.kind == REGISTER_NAME && e.fault.None? then NAME_FEE else 0
  {
    hide ParseSlash, DoubleVote, ParseTransfer, ParseStake, ParseName;
    BodyShape(cr, l, tx, slot, baseFee);
  }
}
