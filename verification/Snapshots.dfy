/**
 The state tables as bytes: the input of the state root and the full snapshot with its restore
 (src/state.c:201-344; section 11.1 of PROTOCOL.md).
 */
module Snapshots {
  import opened Words
  import opened Types
  import opened Codec
  import opened Table
  import opened Ledgers

  datatype Tables = Tables(accounts: seq<Row<Holdings>>, names: seq<Row<Addr>>)

  /** Sorted, addresses 32 bytes, names valid: what every operation keeps. */
  predicate WellFormed(t: Tables) {
    && Sorted(t.accounts) && Sorted(t.names)
    && (forall i :: 0 <= i < |t.accounts| ==> |t.accounts[i].key| == 32)
    && (forall i :: 0 <= i < |t.names| ==> NameValid(t.names[i].key))
  }

  /** The counts a snapshot can hold: it stores them in 32 bits. */
  predicate Fits(t: Tables) {
    |t.accounts| < W32 && |t.names| < W32
  }

  function AccountBytes(r: Row<Holdings>): (b: Bytes)
    ensures |b| == |r.key| + 32
  {
    r.key + (Be64(r.val.balance) + (Be64(r.val.nonce) + (Be64(r.val.stake) + Be64(r.val.unbondAt))))
  }

  function NameRowBytes(r: Row<Addr>): Bytes {
    [|r.key| % 256] + (r.key + r.val)
  }

  function AccountsBytes(t: seq<Row<Holdings>>): Bytes {
    if t == [] then [] else AccountBytes(t[0]) + AccountsBytes(t[1..])
  }

  function NamesBytes(t: seq<Row<Addr>>): Bytes {
    if t == [] then [] else NameRowBytes(t[0]) + NamesBytes(t[1..])
  }

  function RootInput(t: Tables): Bytes {
    Ascii("AGCH:STATE:v1") + (AccountsBytes(t.accounts) + ([0xFF] + NamesBytes(t.names)))
  }

  function SnapshotHead(chainId: U64): (r: Bytes)
    ensures |r| == 26
  {
    Ascii("AGCH:STATESNAP:v1") + ([1] + Be64(chainId))
  }

  function SnapshotBytes(chainId: U64, t: Tables): Bytes {
    SnapshotHead(chainId) + (Be32(|t.accounts| % W32) + (Be32(|t.names| % W32) +
      (AccountsBytes(t.accounts) + NamesBytes(t.names))))
  }

  // ---------------------------------------------------------------------------
  // Restore
  // ---------------------------------------------------------------------------

  function AccountAt(buf: Bytes): Row<Holdings>
    requires |buf| >= 64
  {
    Row(buf[..32], Holdings(Rd64(buf[32..40]), Rd64(buf[40..48]), Rd64(buf[48..56]), Rd64(buf[56..64])))
  }

  /** Reads `n` more rows after `acc`; fails on a short buffer or a row out of order. */
  function ReadAccounts(acc: seq<Row<Holdings>>, buf: Bytes, n: nat): Option<(seq<Row<Holdings>>, Bytes)>
    decreases n
  {
    if n == 0 then Some((acc, buf))
    else if |buf| < 64 then None
    else
      var r := AccountAt(buf);
      if acc != [] && !Less(acc[|acc| - 1].key, r.key) then None
      else ReadAccounts(acc + [r], buf[64..], n - 1)
  }

  predicate HasName(buf: Bytes) {
    |buf| >= 1 && 1 <= buf[0] <= NAME_MAX_LEN && |buf| >= 33 + buf[0]
  }

  function NameAt(buf: Bytes): Row<Addr>
    requires HasName(buf)
  {
    Row(buf[1..1 + buf[0]], buf[1 + buf[0]..33 + buf[0]])
  }

  function ReadNames(acc: seq<Row<Addr>>, buf: Bytes, n: nat): Option<(seq<Row<Addr>>, Bytes)>
    decreases n
  {
    if n == 0 then Some((acc, buf))
    else if !HasName(buf) then None
    else
      var r := NameAt(buf);
      if !NameValid(r.key) || (acc != [] && !Less(acc[|acc| - 1].key, r.key)) then None
      else ReadNames(acc + [r], buf[33 + buf[0]..], n - 1)
  }

  datatype Restored = Restored(ok: bool, tables: Tables)

  /**
   What `ac_state_deserialize` leaves behind, also when it fails: nothing changes before the header
   is accepted, and a table is published only once all its rows were read.
   */
  function Restore(chainId: U64, before: Tables, buf: Bytes): Restored {
    if |buf| < 34 || buf[..26] != SnapshotHead(chainId) then Restored(false, before)
    else
      match ReadAccounts([], buf[34..], Rd32(buf[26..30]))
      case None => Restored(false, Tables([], []))
      case Some((accounts, rest)) =>
        match ReadNames([], rest, Rd32(buf[30..34]))
        case None => Restored(false, Tables(accounts, []))
        case Some((names, tail)) => Restored(tail == [], Tables(accounts, names))
  }

  lemma AccountRoundTrip(r: Row<Holdings>, rest: Bytes)
    requires |r.key| == 32
    ensures AccountAt(AccountBytes(r) + rest) == r && (AccountBytes(r) + rest)[64..] == rest
  {
    var buf := AccountBytes(r) + rest;
    assert buf[..32] == r.key && buf[32..40] == Be64(r.val.balance) && buf[40..48] == Be64(r.val.nonce);
    assert buf[48..56] == Be64(r.val.stake) && buf[56..64] == Be64(r.val.unbondAt);
    Rd64Be64(r.val.balance);
    Rd64Be64(r.val.nonce);
    Rd64Be64(r.val.stake);
    Rd64Be64(r.val.unbondAt);
  }

  lemma AccountReencode(buf: Bytes)
    requires |buf| >= 64
    ensures AccountBytes(AccountAt(buf)) == buf[..64]
  {
    assert buf[..64] == buf[..32] + (buf[32..40] + (buf[40..48] + (buf[48..56] + buf[56..64])));
  }

  lemma {:induction false} AccountsRoundTrip(acc: seq<Row<Holdings>>, t: seq<Row<Holdings>>, rest: Bytes)
    requires Sorted(acc + t) && forall i :: 0 <= i < |t| ==> |t[i].key| == 32
    ensures ReadAccounts(acc, AccountsBytes(t) + rest, |t|) == Some((acc + t, rest))
    decreases |t|
  {
    hide Less, AccountBytes, AccountAt;
    if t == [] {
      assert acc + t == acc && AccountsBytes(t) + rest == rest;
    } else {
      var more := AccountsBytes(t[1..]) + rest;
      assert AccountsBytes(t) + rest == AccountBytes(t[0]) + more;
      AccountRoundTrip(t[0], more);
      assert acc + t == acc + [t[0]] + t[1..];
      assert acc != [] ==> (acc + t)[|acc| - 1] == acc[|acc| - 1] && (acc + t)[|acc|] == t[0];
      AccountsRoundTrip(acc + [t[0]], t[1..], rest);
    }
  }

  lemma SortedSnoc<V>(t: seq<Row<V>>, r: Row<V>)
    requires Sorted(t) && (t == [] || Less(t[|t| - 1].key, r.key))
    ensures Sorted(t + [r])
  {
    hide Less;
    forall i | 0 <= i < |t| - 1 ensures Less(t[i].key, r.key) {
      LessTransitive(t[i].key, t[|t| - 1].key, r.key);
    }
  }

  lemma {:induction false} AccountsReencode(acc: seq<Row<Holdings>>, buf: Bytes, n: nat)
    requires Sorted(acc) && ReadAccounts(acc, buf, n).Some?
    requires forall i :: 0 <= i < |acc| ==> |acc[i].key| == 32
    ensures var (t, rest) := ReadAccounts(acc, buf, n).value;
      && |t| == |acc| + n && acc <= t && Sorted(t) && AccountsBytes(t[|acc|..]) + rest == buf
      && forall i :: 0 <= i < |t| ==> |t[i].key| == 32
    decreases n
  {
    hide Less, AccountBytes, AccountAt, Sorted;
    var (t, rest) := ReadAccounts(acc, buf, n).value;
    if n == 0 {
      assert t[|acc|..] == [] && AccountsBytes([]) + rest == buf;
    } else {
      var r := AccountAt(buf);
      AccountReencode(buf);
      assert |r.key| == 32 by { AccountKey(buf); }
      SortedSnoc(acc, r);
      AccountsReencode(acc + [r], buf[64..], n - 1);
      var tail := t[|acc|..];
      assert tail[0] == r && tail[1..] == t[|acc + [r]|..];
      assert buf == buf[..64] + buf[64..];
    }
  }

  lemma AccountKey(buf: Bytes)
    requires |buf| >= 64
    ensures |AccountAt(buf).key| == 32
  {
  }

  lemma NameRowRoundTrip(r: Row<Addr>, rest: Bytes)
    requires NameValid(r.key)
    ensures var buf := NameRowBytes(r) + rest;
      HasName(buf) && buf[0] == |r.key| && NameAt(buf) == r && buf[33 + buf[0]..] == rest
  {
    var buf := NameRowBytes(r) + rest;
    assert buf[1..1 + |r.key|] == r.key && buf[1 + |r.key|..33 + |r.key|] == r.val;
  }

  lemma NameReencode(buf: Bytes)
    requires HasName(buf)
    ensures buf == NameRowBytes(NameAt(buf)) + buf[33 + buf[0]..]
  {
  }

  lemma ReadsOneName(acc: seq<Row<Addr>>, r: Row<Addr>, more: Bytes, n: nat)
    requires n > 0 && NameValid(r.key) && (acc != [] ==> Less(acc[|acc| - 1].key, r.key))
    ensures ReadNames(acc, NameRowBytes(r) + more, n) == ReadNames(acc + [r], more, n - 1)
  {
    hide Less, NameRowBytes, NameAt, HasName, NameValid;
    NameRowRoundTrip(r, more);
  }

  lemma {:induction false} NamesRoundTrip(acc: seq<Row<Addr>>, t: seq<Row<Addr>>, rest: Bytes)
    requires Sorted(acc + t) && forall i :: 0 <= i < |t| ==> NameValid(t[i].key)
    ensures ReadNames(acc, NamesBytes(t) + rest, |t|) == Some((acc + t, rest))
    decreases |t|
  {
    hide Less, NameRowBytes, NameAt, HasName, NameValid;
    if t == [] {
      assert acc + t == acc && NamesBytes(t) + rest == rest;
    } else {
      var more := NamesBytes(t[1..]) + rest;
      assert NamesBytes(t) + rest == NameRowBytes(t[0]) + more;
      assert acc + t == acc + [t[0]] + t[1..];
      assert acc != [] ==> (acc + t)[|acc| - 1] == acc[|acc| - 1] && (acc + t)[|acc|] == t[0];
      ReadsOneName(acc, t[0], more, |t|);
      NamesRoundTrip(acc + [t[0]], t[1..], rest);
    }
  }

  lemma {:induction false} NamesReencode(acc: seq<Row<Addr>>, buf: Bytes, n: nat)
    requires Sorted(acc) && ReadNames(acc, buf, n).Some?
    requires forall i :: 0 <= i < |acc| ==> NameValid(acc[i].key)
    ensures var (t, rest) := ReadNames(acc, buf, n).value;
      && |t| == |acc| + n && acc <= t && Sorted(t) && NamesBytes(t[|acc|..]) + rest == buf
      && forall i :: 0 <= i < |t| ==> NameValid(t[i].key)
    decreases n
  {
    hide Less, Sorted, NameValid, NameRowBytes, NameAt;
    var (t, rest) := ReadNames(acc, buf, n).value;
    if n == 0 {
      assert t[|acc|..] == [] && NamesBytes([]) + rest == buf;
    } else {
      var r := NameAt(buf);
      SortedSnoc(acc, r);
      NamesReencode(acc + [r], buf[33 + buf[0]..], n - 1);
      var tail := t[|acc|..];
      assert tail[0] == r && tail[1..] == t[|acc + [r]|..];
      NameReencode(buf);
    }
  }

  /** Restoring a snapshot gives the tables back, whatever they are restored over. */
  lemma RestoreSnapshot(chainId: U64, t: Tables, before: Tables)
    requires WellFormed(t) && Fits(t)
    ensures Restore(chainId, before, SnapshotBytes(chainId, t)) == Restored(true, t)
  {
    hide ReadAccounts, ReadNames, SnapshotHead, AccountsBytes, NamesBytes, Less, NameValid;
    var buf := SnapshotBytes(chainId, t);
    var na, nn := Be32(|t.accounts|), Be32(|t.names|);
    var body := AccountsBytes(t.accounts) + NamesBytes(t.names);
    assert buf == SnapshotHead(chainId) + (na + (nn + body));
    assert buf[..26] == SnapshotHead(chainId) && buf[26..30] == na && buf[30..34] == nn && buf[34..] == body;
    Rd32Be32(|t.accounts|);
    Rd32Be32(|t.names|);
    assert [] + t.accounts == t.accounts && [] + t.names == t.names;
    AccountsRoundTrip([], t.accounts, NamesBytes(t.names));
    assert NamesBytes(t.names) + [] == NamesBytes(t.names);
    NamesRoundTrip([], t.names, []);
  }

  lemma NothingUnsorted()
    ensures Sorted<Holdings>([]) && Sorted<Addr>([])
  {
  }

  /** A snapshot that restores is the snapshot of what it restores to. */
  lemma SnapshotOfRestored(chainId: U64, before: Tables, buf: Bytes)
    requires Restore(chainId, before, buf).ok
    ensures var t := Restore(chainId, before, buf).tables;
      WellFormed(t) && Fits(t) && SnapshotBytes(chainId, t) == buf
  {
    hide ReadAccounts, ReadNames, SnapshotHead, AccountsBytes, NamesBytes, Less, NameValid, Sorted, Be32, Rd32;
    var t := Restore(chainId, before, buf).tables;
    var na, nn := Rd32(buf[26..30]), Rd32(buf[30..34]);
    assert Sorted<Holdings>([]) && Sorted<Addr>([]) by { NothingUnsorted(); }
    AccountsReencode([], buf[34..], na);
    var rest := ReadAccounts([], buf[34..], na).value.1;
    NamesReencode([], rest, nn);
    assert t.accounts[0..] == t.accounts && t.names[0..] == t.names;
    assert buf[34..] == AccountsBytes(t.accounts) + NamesBytes(t.names);
    assert buf == buf[..26] + (buf[26..30] + (buf[30..34] + buf[34..]));
  }

  // ---------------------------------------------------------------------------
  // Tables and ledgers
  // ---------------------------------------------------------------------------

  ghost function ToLedger(chainId: U64, t: Tables): Ledger
    requires WellFormed(t)
  {
    Ledger(chainId, ToMap(t.accounts), ToMap(t.names))
  }

  ghost function TablesOf(l: Ledger): Tables {
    Tables(TableOf(l.accounts), TableOf(l.names))
  }

  /** The state root of a ledger: a function of the two maps alone. */
  ghost function StateRoot(cr: Crypto, l: Ledger): Hash {
    cr.hash(RootInput(TablesOf(l)))
  }

  /** Tables with equal contents are identical, so snapshots and root inputs are too. */
  lemma TablesAreCanonical(chainId: U64, t: Tables)
    requires WellFormed(t)
    ensures TablesOf(ToLedger(chainId, t)) == t
  {
    hide Less, ToMap;
    Canonical(TableOf(ToMap(t.accounts)), t.accounts);
    Canonical(TableOf(ToMap(t.names)), t.names);
  }
}
