/**
 The ledger as two finite maps, and the transaction transition on it (src/state.c).

 This is the abstract state that the sorted arrays of StateStore.dfy refine. All amounts are
 64-bit; the points where the C code may wrap are written out.
 */
module Ledgers {
  import opened Words
  import opened Types
  import opened Codec

  datatype Holdings = Holdings(balance: U64, nonce: U64, stake: U64, unbondAt: U64)

  const EMPTY := Holdings(0, 0, 0, 0)

  datatype Ledger = Ledger(chainId: U64, accounts: map<Bytes, Holdings>, names: map<Bytes, Addr>)

  /** Keys are addresses, no empty account is stored, every registered name is valid. */
  ghost predicate Valid(l: Ledger) {
    && (forall a :: a in l.accounts ==> |a| == 32 && l.accounts[a] != EMPTY)
    && (forall n :: n in l.names ==> NameValid(n))
  }

  function Get(l: Ledger, a: Bytes): Holdings {
    if a in l.accounts then l.accounts[a] else EMPTY
  }

  /** Writing an empty account removes it (src/state.c:96-118). */
  function Set(l: Ledger, a: Addr, h: Holdings): Ledger {
    l.(accounts := if h == EMPTY then l.accounts - {a} else l.accounts[a := h])
  }

  function Credit(l: Ledger, a: Addr, amount: U64): Ledger {
    var h := Get(l, a);
    Set(l, a, h.(balance := (h.balance + amount) % W64))
  }

  /** Debiting more than the balance clamps to zero (src/state.c:135-141). */
  function Debit(l: Ledger, a: Addr, amount: U64): Ledger {
    var h := Get(l, a);
    Set(l, a, h.(balance := if amount > h.balance then 0 else h.balance - amount))
  }

  // ---------------------------------------------------------------------------
  // One transaction
  // ---------------------------------------------------------------------------

  datatype Fault =
    | BadVersion | WrongChain | Expired | BadNonce | UnknownKind | GasTooLow | FeeOverflow | BadBody
    | InsufficientBalance | OutOfGas | Insufficient | InsufficientStake | BadName | NoNameFee | NameTaken
    | BadEvidence | NonConflicting | BadSignatures | NoStake

  /** `Rejected` leaves no trace; `Included` with a fault ran no body but paid for the attempt. */
  datatype Receipt =
    | Rejected(why: Fault)
    | Included(fault: Option<Fault>, gas: U64, burned: U64, tip: U64)

  function Fee(gas: nat, perGas: nat): nat {
    gas * perGas
  }

  function PerGas(tx: Tx, baseFee: U64): U64 {
    (baseFee + tx.tip) % W64
  }

  function NeededGas(tx: Tx): nat
    requires IntrinsicGas(tx.kind).Some?
  {
    IntrinsicGas(tx.kind).value + |tx.memo|
  }

  function Value(tx: Tx): U64 {
    if tx.kind == TRANSFER && ParseTransfer(tx.body).Some? then ParseTransfer(tx.body).value.amount else 0
  }

  /** The checks made before anything is written, in order (src/state.c:380-437). */
  function Precheck(l: Ledger, tx: Tx, slot: U64, baseFee: U64): Option<Fault> {
    var perGas := PerGas(tx, baseFee);
    if tx.version != TX_VERSION then Some(BadVersion)
    else if tx.chainId != l.chainId then Some(WrongChain)
    else if slot >= tx.validUntil then Some(Expired)
    else if tx.nonce != Get(l, tx.sender).nonce then Some(BadNonce)
    else if IntrinsicGas(tx.kind).None? then Some(UnknownKind)
    else if tx.gasLimit < NeededGas(tx) then Some(GasTooLow)
    else if perGas != 0 && tx.gasLimit > (W64 - 1) / perGas then Some(FeeOverflow)
    else if tx.kind == TRANSFER && ParseTransfer(tx.body).None? then Some(BadBody)
    else if Get(l, tx.sender).balance < Fee(tx.gasLimit, perGas) + Value(tx) then Some(InsufficientBalance)
    else None
  }

  /**
   What the body does before fees: the ledger with everybody but the sender written, the sender's
   local copy, the gas charged, and the amounts burned by name fees and destroyed by slashing.
   */
  datatype Effect = Effect(
    fault: Option<Fault>, ledger: Ledger, sender: Holdings, gas: nat, burn: nat, destroyed: nat)

  function Transfer(l: Ledger, tx: Tx, sender: Holdings): Effect
    requires tx.kind == TRANSFER && ParseTransfer(tx.body).Some? && Value(tx) <= sender.balance
  {
    var b := ParseTransfer(tx.body).value;
    var gas := NeededGas(tx) + if b.recipient in l.accounts then 0 else 50;
    if gas > tx.gasLimit then Effect(Some(OutOfGas), l, sender, gas, 0, 0)
    else Effect(None, Credit(l, b.recipient, b.amount), sender.(balance := sender.balance - b.amount), gas, 0, 0)
  }

  function Bond(l: Ledger, tx: Tx, sender: Holdings): Effect
    requires tx.kind == STAKE_BOND
  {
    var gas := NeededGas(tx);
    match ParseStake(tx.body)
    case None => Effect(Some(BadBody), l, sender, gas, 0, 0)
    case Some(amount) =>
      if sender.balance < amount then Effect(Some(Insufficient), l, sender, gas, 0, 0)
      else
        var s := sender.(balance := sender.balance - amount, stake := (sender.stake + amount) % W64);
        Effect(None, l, s, gas, 0, 0)
  }

  function Unbond(l: Ledger, tx: Tx, slot: U64, sender: Holdings): Effect
    requires tx.kind == STAKE_UNBOND
  {
    var gas := NeededGas(tx);
    match ParseStake(tx.body)
    case None => Effect(Some(BadBody), l, sender, gas, 0, 0)
    case Some(amount) =>
      if sender.stake < amount then Effect(Some(InsufficientStake), l, sender, gas, 0, 0)
      else
        var at := if sender.unbondAt == 0 then (slot + EPOCH_SLOTS * 6 / 24) % W64 else sender.unbondAt;
        var s := sender.(balance := (sender.balance + amount) % W64, stake := sender.stake - amount, unbondAt := at);
        Effect(None, l, s, gas, 0, 0)
  }

  function Register(l: Ledger, tx: Tx, sender: Holdings): Effect
    requires tx.kind == REGISTER_NAME
  {
    var gas := NeededGas(tx);
    match ParseName(tx.body)
    case None => Effect(Some(BadName), l, sender, gas, 0, 0)
    case Some(name) =>
      if sender.balance < NAME_FEE then Effect(Some(NoNameFee), l, sender, gas, 0, 0)
      else if name in l.names then Effect(Some(NameTaken), l, sender, gas, 0, 0)
      else
        var s := sender.(balance := sender.balance - NAME_FEE);
        Effect(None, l.(names := l.names[name := tx.sender]), s, gas, NAME_FEE, 0)
  }

  /** Both signatures are votes of `b.validator`, at one height, for two different blocks. */
  predicate DoubleVote(cr: Crypto, b: SlashBody) {
    && b.hashA != b.hashB
    && cr.verify(b.sigA, VoteMessage(b.height, b.hashA), b.validator)
    && cr.verify(b.sigB, VoteMessage(b.height, b.hashB), b.validator)
  }

  function Slash(cr: Crypto, l: Ledger, tx: Tx, sender: Holdings): Effect
    requires tx.kind == SLASH_EVIDENCE
  {
    var gas := NeededGas(tx);
    match ParseSlash(tx.body)
    case None => Effect(Some(BadEvidence), l, sender, gas, 0, 0)
    case Some(b) =>
      var v := Get(l, b.validator);
      if b.hashA == b.hashB then Effect(Some(NonConflicting), l, sender, gas, 0, 0)
      else if !DoubleVote(cr, b) then Effect(Some(BadSignatures), l, sender, gas, 0, 0)
      else if v.stake == 0 then Effect(Some(NoStake), l, sender, gas, 0, 0)
      else
        var s := sender.(balance := (sender.balance + v.stake / 2) % W64);
        Effect(None, Set(l, b.validator, v.(stake := 0)), s, gas, 0, v.stake - v.stake / 2)
  }

  /** The five-way switch, on the sender's copy with its nonce advanced (src/state.c:439-544). */
  function Body(cr: Crypto, l: Ledger, tx: Tx, slot: U64, baseFee: U64): Effect
    requires Precheck(l, tx, slot, baseFee).None?
  {
    var h := Get(l, tx.sender);
    var sender := h.(nonce := (h.nonce + 1) % W64);
    if tx.kind == TRANSFER then Transfer(l, tx, sender)
    else if tx.kind == STAKE_BOND then Bond(l, tx, sender)
    else if tx.kind == STAKE_UNBOND then Unbond(l, tx, slot, sender)
    else if tx.kind == REGISTER_NAME then Register(l, tx, sender)
    else Slash(cr, l, tx, sender)
  }

  function GasCharged(e: Effect, tx: Tx): U32 {
    if e.gas > tx.gasLimit then tx.gasLimit else e.gas
  }

  function BaseFeeDue(e: Effect, tx: Tx, baseFee: U64): U64 {
    Fee(GasCharged(e, tx), baseFee) % W64
  }

  function TipDue(e: Effect, tx: Tx): U64 {
    Fee(GasCharged(e, tx), tx.tip) % W64
  }

  /** What the sender actually pays: the wrapped sum of both fees, clamped to the balance. */
  function Paid(e: Effect, tx: Tx, baseFee: U64): (p: U64)
    ensures p <= e.sender.balance
  {
    var due := (BaseFeeDue(e, tx, baseFee) + TipDue(e, tx)) % W64;
    if e.sender.balance < due then e.sender.balance else due
  }

  /** The state transition of one transaction (src/state.c:373-576). */
  function ApplyTx(cr: Crypto, l: Ledger, tx: Tx, slot: U64, baseFee: U64): (Ledger, Receipt) {
    match Precheck(l, tx, slot, baseFee)
    case Some(why) => (l, Rejected(why))
    case None =>
      var e := Body(cr, l, tx, slot, baseFee);
      var s := e.sender.(balance := e.sender.balance - Paid(e, tx, baseFee));
      var burned := (e.burn + BaseFeeDue(e, tx, baseFee)) % W64;
      (Set(e.ledger, tx.sender, s), Included(e.fault, GasCharged(e, tx), burned, TipDue(e, tx)))
  }

  // ---------------------------------------------------------------------------
  // First consequences
  // ---------------------------------------------------------------------------

  lemma SetGet(l: Ledger, a: Addr, h: Holdings, b: Bytes)
    ensures Get(Set(l, a, h), b) == if b == a then h else Get(l, b)
  {
  }

  /** What every body has in common, whichever kind ran. */
  lemma BodyShape(cr: Crypto, l: Ledger, tx: Tx, slot: U64, baseFee: U64)
    requires Precheck(l, tx, slot, baseFee).None?
    ensures var e := Body(cr, l, tx, slot, baseFee); var h := Get(l, tx.sender);
      && e.gas <= 1033
      && e.sender.nonce == (h.nonce + 1) % W64
      && e.ledger.chainId == l.chainId
      && (e.fault.Some? ==> e.ledger == l && e.sender == h.(nonce := (h.nonce + 1) % W64) && e.burn == e.destroyed == 0)
  {
    hide ParseTransfer, ParseSlash, ParseName, ParseStake, PerGas, DoubleVote;
  }

  lemma BodyKeepsOtherNonces(cr: Crypto, l: Ledger, tx: Tx, slot: U64, baseFee: U64, a: Bytes)
    requires Precheck(l, tx, slot, baseFee).None?
    ensures Get(Body(cr, l, tx, slot, baseFee).ledger, a).nonce == Get(l, a).nonce
  {
    hide ParseTransfer, ParseSlash, ParseName, ParseStake, PerGas, DoubleVote, Precheck;
  }

  lemma BodyKeepsValid(cr: Crypto, l: Ledger, tx: Tx, slot: U64, baseFee: U64)
    requires Precheck(l, tx, slot, baseFee).None? && Valid(l)
    ensures Valid(Body(cr, l, tx, slot, baseFee).ledger)
  {
    hide ParseTransfer, ParseSlash, ParseStake, PerGas, DoubleVote, NameValid;
  }

  lemma SetKeepsValid(l: Ledger, a: Addr, h: Holdings)
    requires Valid(l)
    ensures Valid(Set(l, a, h))
  {
    hide NameValid;
  }

  lemma ApplyKeepsValid(cr: Crypto, l: Ledger, tx: Tx, slot: U64, baseFee: U64)
    requires Valid(l)
    ensures Valid(ApplyTx(cr, l, tx, slot, baseFee).0)
  {
    hide Body, Precheck, Paid, BaseFeeDue, TipDue, GasCharged, Set, Valid;
    if Precheck(l, tx, slot, baseFee).None? {
      var e := Body(cr, l, tx, slot, baseFee);
      BodyKeepsValid(cr, l, tx, slot, baseFee);
      SetKeepsValid(e.ledger, tx.sender, e.sender.(balance := e.sender.balance - Paid(e, tx, baseFee)));
    }
  }

  /** Inclusion uses the sender's current nonce, advances it by one and touches no other nonce. */
  lemma NonceStep(cr: Crypto, l: Ledger, tx: Tx, slot: U64, baseFee: U64, a: Bytes)
    requires ApplyTx(cr, l, tx, slot, baseFee).1.Included?
    ensures tx.nonce == Get(l, tx.sender).nonce
    ensures Get(ApplyTx(cr, l, tx, slot, baseFee).0, a).nonce ==
            if a == tx.sender then (tx.nonce + 1) % W64 else Get(l, a).nonce
  {
    hide Body, PerGas, BaseFeeDue, TipDue, GasCharged;
    BodyShape(cr, l, tx, slot, baseFee);
    BodyKeepsOtherNonces(cr, l, tx, slot, baseFee, a);
  }

  /** An included transaction is charged at most 1033 gas. */
  lemma GasBound(cr: Crypto, l: Ledger, tx: Tx, slot: U64, baseFee: U64)
    requires ApplyTx(cr, l, tx, slot, baseFee).1.Included?
    ensures ApplyTx(cr, l, tx, slot, baseFee).1.gas <= 1033
  {
    hide Body, PerGas, Paid, BaseFeeDue, TipDue;
    BodyShape(cr, l, tx, slot, baseFee);
  }

  /**
   Wrapped word arithmetic: the two fees add up to `gas * perGas`, or to one full wrap more when
   `baseFee + tip` itself wrapped.
   */
  lemma FeeSplit(gas: nat, baseFee: U64, tip: U64)
    requires Fee(gas, (baseFee + tip) % W64) < W64
    ensures var due := Fee(gas, baseFee) % W64 + Fee(gas, tip) % W64; var exact := Fee(gas, (baseFee + tip) % W64);
      && (due == exact || due == exact + W64)
      && (baseFee + tip < W64 ==> due == exact)
  {
    hide Fee;
    var x, y := Fee(gas, baseFee), Fee(gas, tip);
    FeeAdds(gas, baseFee, tip);
    if baseFee + tip < W64 {
      assert (baseFee + tip) % W64 == baseFee + tip;
      assert x < W64 && y < W64;
    } else {
      var p := baseFee + tip - W64;
      assert (baseFee + tip) % W64 == p;
      FeeOfWrap(gas, p);
      WordsAddUp(x, y, Fee(gas, p), gas);
    }
  }

  lemma FeeAdds(gas: nat, a: nat, b: nat)
    ensures Fee(gas, a + b) == Fee(gas, a) + Fee(gas, b)
  {
  }

  lemma FeeOfWrap(gas: nat, p: nat)
    ensures Fee(gas, p + W64) == Fee(gas, p) + gas * W64
  {
  }

  lemma WordsAddUp(x: nat, y: nat, e: nat, k: nat)
    requires x + y == e + k * W64 && e < W64
    ensures x % W64 + y % W64 == e || x % W64 + y % W64 == e + W64
  {
  }

  /** Included transactions passed the fee-overflow guard, so the maximum fee fits a word. */
  lemma MaxFeeFits(l: Ledger, tx: Tx, slot: U64, baseFee: U64, gas: nat)
    requires Precheck(l, tx, slot, baseFee).None? && gas <= tx.gasLimit
    ensures Fee(gas, PerGas(tx, baseFee)) + Value(tx) <= Get(l, tx.sender).balance
  {
    hide PerGas, Value, ParseTransfer;
    MulMonotone(gas, tx.gasLimit, PerGas(tx, baseFee));
  }

  /** What an included transaction takes from its sender after the body ran. */
  lemma PaidIsExact(l: Ledger, tx: Tx, slot: U64, baseFee: U64, e: Effect)
    requires Precheck(l, tx, slot, baseFee).None?
    ensures var exact := Fee(GasCharged(e, tx), PerGas(tx, baseFee));
      Paid(e, tx, baseFee) == if e.sender.balance < exact then e.sender.balance else exact
  {
    hide Precheck, Fee, Value;
    MaxFeeFits(l, tx, slot, baseFee, GasCharged(e, tx));
    FeeSplit(GasCharged(e, tx), baseFee, tx.tip);
  }

  /**
   A transaction whose body fails changes only its sender: the nonce advances and exactly the
   charged gas is paid, never clamped.
   */
  lemma FailedBodyCostsOnlyFees(cr: Crypto, l: Ledger, tx: Tx, slot: U64, baseFee: U64)
    requires var r := ApplyTx(cr, l, tx, slot, baseFee).1; r.Included? && r.fault.Some?
    ensures var (after, r) := ApplyTx(cr, l, tx, slot, baseFee); var h := Get(l, tx.sender);
      var paid := Fee(r.gas, PerGas(tx, baseFee));
      && paid <= h.balance
      && after == Set(l, tx.sender, h.(balance := h.balance - paid, nonce := (h.nonce + 1) % W64))
  {
    hide Body, Precheck, PerGas, Paid, BaseFeeDue, TipDue, Fee, Value, Set;
    var e := Body(cr, l, tx, slot, baseFee);
    BodyShape(cr, l, tx, slot, baseFee);
    MaxFeeFits(l, tx, slot, baseFee, GasCharged(e, tx));
    PaidIsExact(l, tx, slot, baseFee, e);
  }
}
