/**
 The ledger as two sorted tables, each a sequence that a write reassigns (src/state.c), proved against
 Ledgers.dfy and Snapshots.dfy.
 */
module StateStore {
  import opened Words
  import opened Types
  import opened Codec
  import opened Table
  import opened Ledgers
  import opened Snapshots

  class Store {
    var chainId: U64
    var accounts: seq<Row<Holdings>>
    var names: seq<Row<Addr>>

    ghost predicate Valid()
      reads this
    {
      WellFormed(Tables(accounts, names))
    }

    /** The two maps the tables stand for. */
    ghost function Model(): Ledger
      reads this
      requires Valid()
    {
      ToLedger(chainId, Tables(accounts, names))
    }

    constructor (id: U64)
      ensures Valid() && Model() == Ledger(id, map[], map[]) && chainId == id && accounts == [] && names == []
    {
      chainId := id;
      accounts := [];
      names := [];
      new;
      EmptyTables(id);
    }

    method Get(a: Addr) returns (h: Holdings, found: bool)
      requires Valid()
      ensures h == Ledgers.Get(Model(), a) && found == (a in Model().accounts)
    {
      hide Less, NameValid;
      var i := Lookup(accounts, a);
      if i < 0 {
        GapIsAbsence(accounts, a, -i - 1);
        return EMPTY, false;
      }
      return accounts[i].val, true;
    }

    /** Replaces, inserts or, for an empty account, removes the row of `a`. */
    method Set(a: Addr, h: Holdings)
      requires Valid()
      modifies this`accounts
      ensures Valid() && Model() == Ledgers.Set(old(Model()), a, h)
    {
      hide Less, NameValid, ToMap, Sorted, InsertAt, RemoveAt;
      ghost var t := accounts;
      var i := Lookup(accounts, a);
      if i >= 0 {
        if h == EMPTY {
          accounts := RemoveAt(accounts, i);
          RemoveRefines(t, i);
          RemoveKeepsKeys(t, i);
        } else {
          accounts := accounts[i := Row(a, h)];
          ReplaceRefines(t, i, h);
        }
      } else {
        GapIsAbsence(t, a, -i - 1);
        if h == EMPTY {
          assert ToMap(t) - {a} == ToMap(t);
        } else {
          var p := -i - 1;
          assert p <= |t| by { GapInRange(t, a, p); }
          accounts := InsertAt(accounts, p, Row(a, h));
          InsertRefines(t, p, Row(a, h));
          InsertKeepsKeys(t, p, Row(a, h));
        }
      }
    }

    method Credit(a: Addr, amount: U64)
      requires Valid()
      modifies this`accounts
      ensures Valid() && Model() == Ledgers.Credit(old(Model()), a, amount)
    {
      hide WellFormed, ToLedger, Ledgers.Set;
      var h, _ := Get(a);
      Set(a, h.(balance := (h.balance + amount) % W64));
    }

    method Debit(a: Addr, amount: U64)
      requires Valid()
      modifies this`accounts
      ensures Valid() && Model() == Ledgers.Debit(old(Model()), a, amount)
    {
      hide WellFormed, ToLedger, Ledgers.Set;
      var h, _ := Get(a);
      Set(a, h.(balance := if amount > h.balance then 0 else h.balance - amount));
    }

    method NameLookup(name: Bytes) returns (r: Option<Addr>)
      requires Valid()
      ensures r == if name in Model().names then Some(Model().names[name]) else None
    {
      hide Less, NameValid;
      var i := Lookup(names, name);
      if i < 0 {
        GapIsAbsence(names, name, -i - 1);
        return None;
      }
      return Some(names[i].val);
    }

    /** Fails on an invalid or taken name. */
    method NameRegister(name: Bytes, a: Addr) returns (ok: bool)
      requires Valid()
      modifies this`names
      ensures Valid() && ok == (NameValid(name) && name !in old(Model()).names)
      ensures Model() == if ok then old(Model()).(names := old(Model()).names[name := a]) else old(Model())
    {
      hide Less, ToMap, Sorted, InsertAt, NameValid;
      ghost var t := names;
      if !NameValid(name) {
        return false;
      }
      var i := Lookup(names, name);
      if i >= 0 {
        return false;
      }
      var p := -i - 1;
      GapIsAbsence(t, name, p);
      assert p <= |t| by { GapInRange(t, name, p); }
      names := InsertAt(names, p, Row(name, a));
      InsertRefines(t, p, Row(name, a));
      InsertKeepsKeys(t, p, Row(name, a));
      return true;
    }

    // -------------------------------------------------------------------------
    // Transactions
    // -------------------------------------------------------------------------

    /** Everything `ac_state_apply_tx` checks before it writes. */
    method Check(tx: Tx, slot: U64, baseFee: U64) returns (fault: Option<Fault>, sender: Holdings)
      requires Valid()
      ensures fault == Precheck(Model(), tx, slot, baseFee)
      ensures fault.None? ==> sender == Ledgers.Get(Model(), tx.sender)
    {
      hide WellFormed, ToLedger, ParseTransfer;
      sender := EMPTY;
      if tx.version != TX_VERSION { return Some(BadVersion), sender; }
      if tx.chainId != chainId {
        assert Model().chainId == chainId by { ModelChainId(); }
        return Some(WrongChain), sender;
      }
      assert Model().chainId == chainId by { ModelChainId(); }
      if slot >= tx.validUntil { return Some(Expired), sender; }
      var known;
      sender, known := Get(tx.sender);
      if tx.nonce != sender.nonce { return Some(BadNonce), sender; }
      if IntrinsicGas(tx.kind).None? { return Some(UnknownKind), sender; }
      if tx.gasLimit < NeededGas(tx) { return Some(GasTooLow), sender; }
      var perGas := PerGas(tx, baseFee);
      if perGas != 0 && tx.gasLimit > (W64 - 1) / perGas { return Some(FeeOverflow), sender; }
      var value: U64 := 0;
      if tx.kind == TRANSFER {
        var b := ParseTransfer(tx.body);
        if b.None? { return Some(BadBody), sender; }
        value := b.value.amount;
      }
      if sender.balance < Fee(tx.gasLimit, perGas) + value { return Some(InsufficientBalance), sender; }
      return None, sender;
    }

    lemma ModelChainId()
      requires Valid()
      ensures Model().chainId == chainId
    {
    }

    method RunTransfer(tx: Tx, sender: Holdings) returns (fault: Option<Fault>, s: Holdings, gas: nat)
      requires Valid() && tx.kind == TRANSFER && ParseTransfer(tx.body).Some? && Value(tx) <= sender.balance
      modifies this`accounts
      ensures Valid() && var e := Ledgers.Transfer(old(Model()), tx, sender);
        fault == e.fault && s == e.sender && gas == e.gas && Model() == e.ledger
    {
      hide WellFormed, ToLedger, ParseTransfer, Ledgers.Set;
      var b := ParseTransfer(tx.body).value;
      var rcv, known := Get(b.recipient);
      gas := NeededGas(tx) + if known then 0 else 50;
      if gas > tx.gasLimit {
        return Some(OutOfGas), sender, gas;
      }
      Set(b.recipient, rcv.(balance := (rcv.balance + b.amount) % W64));
      return None, sender.(balance := sender.balance - b.amount), gas;
    }

    method RunRegister(tx: Tx, sender: Holdings) returns (fault: Option<Fault>, s: Holdings, burn: nat)
      requires Valid() && tx.kind == REGISTER_NAME
      modifies this`names
      ensures Valid() && var e := Ledgers.Register(old(Model()), tx, sender);
        fault == e.fault && s == e.sender && burn == e.burn && Model() == e.ledger
    {
      hide WellFormed, ToLedger, NameValid;
      var name := ParseName(tx.body);
      if name.None? { return Some(BadName), sender, 0; }
      if sender.balance < NAME_FEE { return Some(NoNameFee), sender, 0; }
      ParsedNameIsValid(tx.body);
      var ok := NameRegister(name.value, tx.sender);
      if !ok { return Some(NameTaken), sender, 0; }
      return None, sender.(balance := sender.balance - NAME_FEE), NAME_FEE;
    }

    method RunSlash(cr: Crypto, tx: Tx, sender: Holdings) returns (fault: Option<Fault>, s: Holdings)
      requires Valid() && tx.kind == SLASH_EVIDENCE
      modifies this`accounts
      ensures Valid() && var e := Ledgers.Slash(cr, old(Model()), tx, sender);
        fault == e.fault && s == e.sender && Model() == e.ledger
    {
      hide WellFormed, ToLedger, ParseSlash, VoteMessage, Ledgers.Set;
      var evidence := ParseSlash(tx.body);
      if evidence.None? { return Some(BadEvidence), sender; }
      var b := evidence.value;
      if b.hashA == b.hashB { return Some(NonConflicting), sender; }
      if !cr.verify(b.sigA, VoteMessage(b.height, b.hashA), b.validator)
         || !cr.verify(b.sigB, VoteMessage(b.height, b.hashB), b.validator) {
        return Some(BadSignatures), sender;
      }
      var v, _ := Get(b.validator);
      if v.stake == 0 { return Some(NoStake), sender; }
      Set(b.validator, v.(stake := 0));
      return None, sender.(balance := (sender.balance + v.stake / 2) % W64);
    }

    /** The five-way switch on the sender's local copy; bonding touches nothing else. */
    method RunBody(cr: Crypto, tx: Tx, slot: U64, baseFee: U64, sender: Holdings)
      returns (fault: Option<Fault>, s: Holdings, gas: nat, burn: nat)
      requires Valid() && Precheck(Model(), tx, slot, baseFee).None?
      requires var h := Ledgers.Get(Model(), tx.sender); sender == h.(nonce := (h.nonce + 1) % W64)
      modifies this`accounts, this`names
      ensures Valid() && var e := Body(cr, old(Model()), tx, slot, baseFee);
        fault == e.fault && s == e.sender && gas == e.gas && burn == e.burn && Model() == e.ledger
    {
      hide WellFormed, ToLedger, Fee, Transfer, Register, Slash, ParseStake, ParseTransfer;
      s, gas, burn := sender, NeededGas(tx), 0;
      if tx.kind == TRANSFER {
        fault, s, gas := RunTransfer(tx, sender);
        TransferBurnsNothing(old(Model()), tx, sender);
      } else if tx.kind == STAKE_BOND {
        fault := None;
        var amount := ParseStake(tx.body);
        if amount.None? {
          fault := Some(BadBody);
        } else if sender.balance < amount.value {
          fault := Some(Insufficient);
        } else {
          s := s.(balance := s.balance - amount.value, stake := (s.stake + amount.value) % W64);
        }
      } else if tx.kind == STAKE_UNBOND {
        fault := None;
        var amount := ParseStake(tx.body);
        if amount.None? {
          fault := Some(BadBody);
        } else if sender.stake < amount.value {
          fault := Some(InsufficientStake);
        } else {
          s := s.(stake := s.stake - amount.value, balance := (s.balance + amount.value) % W64);
          if s.unbondAt == 0 {
            s := s.(unbondAt := (slot + EPOCH_SLOTS * 6 / 24) % W64);
          }
        }
      } else if tx.kind == REGISTER_NAME {
        fault, s, burn := RunRegister(tx, sender);
        RegisterCostsNeeded(old(Model()), tx, sender);
      } else {
        fault, s := RunSlash(cr, tx, sender);
        SlashCostsNeeded(cr, old(Model()), tx, sender);
      }
    }

    /** `ac_state_apply_tx`: the sender is written last, from the local copy. */
    method ApplyTx(cr: Crypto, tx: Tx, slot: U64, baseFee: U64) returns (receipt: Receipt)
      requires Valid()
      modifies this`accounts, this`names
      ensures Valid() && (Model(), receipt) == Ledgers.ApplyTx(cr, old(Model()), tx, slot, baseFee)
    {
      hide WellFormed, ToLedger, Precheck, Body, Ledgers.Set;
      var why, sender := Check(tx, slot, baseFee);
      if why.Some? {
        return Rejected(why.value);
      }
      sender := sender.(nonce := (sender.nonce + 1) % W64);
      var fault, s, gas, burn := RunBody(cr, tx, slot, baseFee, sender);
      var charged: U32 := if gas > tx.gasLimit then tx.gasLimit else gas;
      var burned: U64, tip: U64 := Fee(charged, baseFee) % W64, Fee(charged, tx.tip) % W64;
      var due: U64 := (burned + tip) % W64;
      if s.balance < due {
        s := s.(balance := 0);
      } else {
        s := s.(balance := s.balance - due);
      }
      Set(tx.sender, s);
      return Included(fault, charged, (burn + burned) % W64, tip);
    }

    // -------------------------------------------------------------------------
    // Root and snapshots
    // -------------------------------------------------------------------------

    method AccountBuffer() returns (buf: Bytes)
      requires Valid()
      ensures buf == AccountsBytes(accounts)
    {
      hide AccountBytes, WellFormed;
      buf := [];
      for i := 0 to |accounts|
        invariant buf == AccountsBytes(accounts[..i])
      {
        AccountsBytesSnoc(accounts[..i], accounts[i]);
        assert accounts[..i + 1] == accounts[..i] + [accounts[i]];
        buf := buf + AccountBytes(accounts[i]);
      }
      assert accounts[..|accounts|] == accounts;
    }

    method NameBuffer() returns (buf: Bytes)
      requires Valid()
      ensures buf == NamesBytes(names)
    {
      hide NameRowBytes, WellFormed;
      buf := [];
      for i := 0 to |names|
        invariant buf == NamesBytes(names[..i])
      {
        NamesBytesSnoc(names[..i], names[i]);
        assert names[..i + 1] == names[..i] + [names[i]];
        buf := buf + NameRowBytes(names[i]);
      }
      assert names[..|names|] == names;
    }

    /** `ac_state_root` depends on the two maps only. */
    method Root(cr: Crypto) returns (h: Hash)
      requires Valid()
      ensures h == StateRoot(cr, Model())
    {
      hide WellFormed, AccountsBytes, NamesBytes, Ascii, TablesOf, ToLedger;
      TablesAreCanonical(chainId, Tables(accounts, names));
      var a := AccountBuffer();
      var n := NameBuffer();
      return cr.hash(Ascii("AGCH:STATE:v1") + (a + ([0xFF] + n)));
    }

    method Serialize() returns (buf: Bytes)
      requires Valid()
      ensures buf == SnapshotBytes(chainId, Tables(accounts, names))
    {
      hide WellFormed, AccountsBytes, NamesBytes, SnapshotHead, Be32;
      var a := AccountBuffer();
      var n := NameBuffer();
      return SnapshotHead(chainId) + (Be32(|accounts| % W32) + (Be32(|names| % W32) + (a + n)));
    }

    /** Reads rows until the count is reached; publishes nothing on failure. */
    method ReadAccountRows(buf: Bytes, from: nat, count: nat) returns (ok: bool, pos: nat)
      requires from <= |buf| && accounts == []
      modifies this`accounts
      ensures from <= pos <= |buf|
      ensures var r := ReadAccounts([], buf[from..], count);
        ok == r.Some? && if ok then r.value == (accounts, buf[pos..]) else accounts == []
    {
      hide AccountAt, Less;
      var rows: seq<Row<Holdings>>, i := [], 0;
      pos := from;
      while i < count
        invariant |rows| == i <= count && from <= pos <= |buf| && accounts == []
        invariant ReadAccounts(rows, buf[pos..], count - i) == ReadAccounts([], buf[from..], count)
      {
        if pos + 64 > |buf| {
          return false, pos;
        }
        var r := AccountAt(buf[pos..]);
        if i > 0 && !Less(rows[i - 1].key, r.key) {
          return false, pos;
        }
        assert buf[pos..][64..] == buf[pos + 64..];
        rows := rows + [r];
        pos := pos + 64;
        i := i + 1;
      }
      accounts := rows;
      return true, pos;
    }

    method ReadNameRows(buf: Bytes, from: nat, count: nat) returns (ok: bool, pos: nat)
      requires from <= |buf| && names == []
      modifies this`names
      ensures from <= pos <= |buf|
      ensures var r := ReadNames([], buf[from..], count);
        ok == r.Some? && if ok then r.value == (names, buf[pos..]) else names == []
    {
      hide NameAt, NameValid, Less;
      var rows: seq<Row<Addr>>, i := [], 0;
      pos := from;
      while i < count
        invariant i <= count && from <= pos <= |buf| && names == []
        invariant ReadNames(rows, buf[pos..], count - i) == ReadNames([], buf[from..], count)
      {
        if pos + 1 > |buf| {
          return false, pos;
        }
        var len := buf[pos];
        assert buf[pos..][0] == len;
        if len < 1 || len > NAME_MAX_LEN || pos + 1 + len + 32 > |buf| {
          return false, pos;
        }
        var r := NameAt(buf[pos..]);
        if !NameValid(r.key) || (rows != [] && !Less(rows[|rows| - 1].key, r.key)) {
          return false, pos;
        }
        assert buf[pos..][33 + len..] == buf[pos + 33 + len..];
        rows := rows + [r];
        pos := pos + 33 + len;
        i := i + 1;
      }
      names := rows;
      return true, pos;
    }

    /** `ac_state_deserialize`, with what it leaves behind on failure. */
    method Deserialize(buf: Bytes) returns (ok: bool)
      modifies this`accounts, this`names
      ensures Restored(ok, Tables(accounts, names)) == Restore(chainId, old(Tables(accounts, names)), buf)
    {
      hide ReadAccounts, ReadNames, SnapshotHead, Rd32;
      if |buf| < 34 || buf[..26] != SnapshotHead(chainId) {
        return false;
      }
      var na, nn := Rd32(buf[26..30]), Rd32(buf[30..34]);
      accounts, names := [], [];
      var pos;
      ok, pos := ReadAccountRows(buf, 34, na);
      if !ok {
        return false;
      }
      ok, pos := ReadNameRows(buf, pos, nn);
      if !ok {
        return false;
      }
      return pos == |buf|;
    }
  }

  lemma EmptyTables(id: U64)
    ensures WellFormed(Tables([], [])) && ToLedger(id, Tables([], [])) == Ledger(id, map[], map[])
  {
  }

  lemma GapInRange<V>(t: seq<Row<V>>, key: Bytes, p: int)
    requires Gap(t, key, p)
    ensures 0 <= p <= |t|
  {
  }

  lemma RemoveKeepsKeys<V>(t: seq<Row<V>>, i: nat)
    requires i < |t|
    ensures forall j :: 0 <= j < |RemoveAt(t, i)| ==> RemoveAt(t, i)[j] == t[if j < i then j else j + 1]
  {
  }

  lemma InsertKeepsKeys<V>(t: seq<Row<V>>, p: nat, row: Row<V>)
    requires p <= |t|
    ensures forall j :: 0 <= j < |InsertAt(t, p, row)| ==>
      InsertAt(t, p, row)[j] == row || exists k :: 0 <= k < |t| && t[k] == InsertAt(t, p, row)[j]
  {
    var u := InsertAt(t, p, row);
    forall j | 0 <= j < |u| ensures u[j] == row || exists k :: 0 <= k < |t| && t[k] == u[j] {
      if j != p {
        assert u[j] == t[if j < p then j else j - 1];
      }
    }
  }

  lemma ParsedNameIsValid(body: Bytes)
    requires ParseName(body).Some?
    ensures NameValid(ParseName(body).value)
  {
    hide NameValid;
  }

  lemma TransferBurnsNothing(l: Ledger, tx: Tx, sender: Holdings)
    requires tx.kind == TRANSFER && ParseTransfer(tx.body).Some? && Value(tx) <= sender.balance
    ensures Transfer(l, tx, sender).burn == 0
  {
    hide ParseTransfer;
  }

  lemma RegisterCostsNeeded(l: Ledger, tx: Tx, sender: Holdings)
    requires tx.kind == REGISTER_NAME
    ensures Register(l, tx, sender).gas == NeededGas(tx)
  {
    hide ParseName;
  }

  lemma SlashCostsNeeded(cr: Crypto, l: Ledger, tx: Tx, sender: Holdings)
    requires tx.kind == SLASH_EVIDENCE
    ensures Slash(cr, l, tx, sender).gas == NeededGas(tx) && Slash(cr, l, tx, sender).burn == 0
  {
    hide ParseSlash, DoubleVote;
  }

  lemma {:induction false} AccountsBytesSnoc(t: seq<Row<Holdings>>, r: Row<Holdings>)
    ensures AccountsBytes(t + [r]) == AccountsBytes(t) + AccountBytes(r)
  {
    hide AccountBytes;
    if t == [] {
      assert ([] + [r])[1..] == [];
    } else {
      AccountsBytesSnoc(t[1..], r);
      assert (t + [r])[1..] == t[1..] + [r];
    }
  }

  lemma {:induction false} NamesBytesSnoc(t: seq<Row<Addr>>, r: Row<Addr>)
    ensures NamesBytes(t + [r]) == NamesBytes(t) + NameRowBytes(r)
  {
    hide NameRowBytes;
    if t == [] {
      assert ([] + [r])[1..] == [];
    } else {
      NamesBytesSnoc(t[1..], r);
      assert (t + [r])[1..] == t[1..] + [r];
    }
  }
}
