/** What the state root commits to (src/state.c:201-258; sections 4.2 and 11.1 of PROTOCOL.md). */
module Roots {
  import opened Words
  import opened Types
  import opened Codec
  import opened Table
  import opened Ledgers
  import opened Snapshots
  import opened Chains
  import opened ChainFacts
  import opened Provenance
  import opened RewardPool

  lemma {:induction false} AccountsLength(t: seq<Row<Holdings>>)
    requires forall i :: 0 <= i < |t| ==> |t[i].key| == 32
    ensures |AccountsBytes(t)| == 64 * |t|
  {
    if t != [] {
      AccountsLength(t[1..]);
    }
  }

  /** Row `k` starts at byte 64 k with its address. */
  lemma {:induction false} AccountStarts(t: seq<Row<Holdings>>, k: nat)
    requires k < |t| && forall i :: 0 <= i < |t| ==> |t[i].key| == 32
    ensures |AccountsBytes(t)| == 64 * |t| && AccountsBytes(t)[64 * k] == t[k].key[0]
  {
    AccountsLength(t);
    if k == 0 {
      assert AccountBytes(t[0])[0] == t[0].key[0];
    } else {
      AccountStarts(t[1..], k - 1);
      assert AccountsBytes(t)[64 * k] == AccountsBytes(t[1..])[64 * (k - 1)];
    }
  }

  lemma RowsShow(t: seq<Row<Addr>>)
    ensures NamesBytes(t) == [] <==> t == []
  {
  }

  /** Name rows delimit themselves: their bytes determine them all. */
  lemma {:induction false} NamesAreDelimited(s: seq<Row<Addr>>, t: seq<Row<Addr>>)
    requires forall i :: 0 <= i < |s| ==> NameValid(s[i].key)
    requires forall i :: 0 <= i < |t| ==> NameValid(t[i].key)
    requires NamesBytes(s) == NamesBytes(t)
    ensures s == t
  {
    hide NameValid, NameAt, HasName;
    RowsShow(s);
    RowsShow(t);
    if s != [] {
      NameRowRoundTrip(s[0], NamesBytes(s[1..]));
      NameRowRoundTrip(t[0], NamesBytes(t[1..]));
      NamesAreDelimited(s[1..], t[1..]);
    }
  }

  /** No account address starts with the separator byte. */
  predicate Plain(t: Tables) {
    forall i :: 0 <= i < |t.accounts| ==> |t.accounts[i].key| == 32 && t.accounts[i].key[0] != 0xFF
  }

  function AfterTag(t: Tables): Bytes {
    AccountsBytes(t.accounts) + ([0xFF] + NamesBytes(t.names))
  }

  lemma TagIsCut(t: Tables)
    ensures RootInput(t)[13..] == AfterTag(t)
  {
    hide Ascii, AccountsBytes, NamesBytes;
  }

  /** With equally many accounts the root input determines both tables. */
  lemma SameCountSameTables(t: Tables, u: Tables)
    requires WellFormed(t) && WellFormed(u) && |t.accounts| == |u.accounts| && AfterTag(t) == AfterTag(u)
    ensures t == u
  {
    hide Less, NameValid, AccountsBytes, NamesBytes, ReadAccounts;
    var x, y := [0xFF] + NamesBytes(t.names), [0xFF] + NamesBytes(u.names);
    assert [] + t.accounts == t.accounts && [] + u.accounts == u.accounts;
    AccountsRoundTrip([], t.accounts, x);
    AccountsRoundTrip([], u.accounts, y);
    assert t.accounts == u.accounts && x == y;
    assert NamesBytes(t.names) == x[1..] && NamesBytes(u.names) == y[1..];
    NamesAreDelimited(t.names, u.names);
  }

  /** With fewer accounts the separator comes where the longer table has the start of an address. */
  lemma SeparatorShows(t: Tables, u: Tables)
    requires WellFormed(t) && WellFormed(u) && |u.accounts| < |t.accounts| && Plain(t)
    ensures AfterTag(t) != AfterTag(u)
  {
    hide Less, NameValid, AccountsBytes, NamesBytes, Sorted;
    var k := |u.accounts|;
    AccountStarts(t.accounts, k);
    AccountsLength(u.accounts);
    assert AfterTag(u)[64 * k] == 0xFF && AfterTag(t)[64 * k] == t.accounts[k].key[0];
  }

  /** The condition under which the root tells two states apart. */
  predicate Separable(t: Tables, u: Tables) {
    |t.accounts| == |u.accounts| || (Plain(t) && Plain(u))
  }

  /** Two states have the same root input if and only if they are the same state, whenever they are separable. */
  lemma RootInputDetermines(t: Tables, u: Tables)
    requires WellFormed(t) && WellFormed(u) && Separable(t, u)
    ensures RootInput(t) == RootInput(u) <==> t == u
  {
    hide Less, NameValid, AfterTag, RootInput, WellFormed, Plain;
    TagIsCut(t);
    TagIsCut(u);
    if RootInput(t) == RootInput(u) {
      if |t.accounts| == |u.accounts| {
        SameCountSameTables(t, u);
      } else if |u.accounts| < |t.accounts| {
        SeparatorShows(t, u);
      } else {
        SeparatorShows(u, t);
      }
    }
  }

  // ---------------------------------------------------------------------------
  // Two states with one root
  // ---------------------------------------------------------------------------

  lemma OneAccount(r: Row<Holdings>)
    ensures AccountsBytes([r]) == AccountBytes(r)
  {
    assert [r][1..] == [] && AccountBytes(r) + [] == AccountBytes(r);
  }

  lemma OneName(r: Row<Addr>)
    ensures NamesBytes([r]) == NameRowBytes(r)
  {
    assert [r][1..] == [] && NameRowBytes(r) + [] == NameRowBytes(r);
  }

  /**
   The condition is needed: an account whose address starts with the separator reads like the separator
   and a name of 31 characters, and the last byte of that name's owner like the separator.
   */
  lemma SeparatorCanBeMistaken(name: Bytes, owner: Addr) returns (t: Tables, u: Tables)
    requires NameValid(name) && |name| == 31 && owner[31] == 0xFF
    ensures WellFormed(t) && WellFormed(u) && |t.accounts| == 1 && u == Tables([], [Row(name, owner)])
    ensures RootInput(t) == RootInput(u)
  {
    hide AccountAt, AccountBytes, NameValid, AccountsBytes, NamesBytes, Ascii;
    var shared := [255, 31] + name + owner;
    var r := AccountAt(shared);
    t, u := Tables([r], []), Tables([], [Row(name, owner)]);
    AccountReencode(shared);
    AccountKey(shared);
    OneAccount(r);
    OneName(u.names[0]);
    RowsShow([]);
    assert AccountsBytes([]) == [] by { AccountsLength([]); }
    assert [0xFF] + NamesBytes([]) == [0xFF];
    assert [] + ([0xFF] + NamesBytes(u.names)) == [0xFF] + NamesBytes(u.names);
    ReadsTwoWays(name, owner, shared);
  }

  lemma ReadsTwoWays(name: Bytes, owner: Addr, shared: Bytes)
    requires |name| == 31 && owner[31] == 0xFF && shared == [255, 31] + name + owner
    ensures shared[..64] + [0xFF] == shared && [0xFF] + NameRowBytes(Row(name, owner)) == shared
  {
  }

  // ---------------------------------------------------------------------------
  // Ledgers and blocks
  // ---------------------------------------------------------------------------

  lemma TablesAreWellFormed(l: Ledger)
    requires Valid(l)
    ensures WellFormed(TablesOf(l)) && ToMap(TablesOf(l).accounts) == l.accounts
      && ToMap(TablesOf(l).names) == l.names
  {
    hide NameValid, Less;
    var t := TablesOf(l);
    forall i | 0 <= i < |t.accounts| ensures |t.accounts[i].key| == 32 {
      assert t.accounts[i].key in l.accounts;
    }
    forall i | 0 <= i < |t.names| ensures NameValid(t.names[i].key) {
      assert t.names[i].key in l.names;
    }
  }

  /** Two valid states with the same root hold the same accounts and the same names, unless their inputs collide. */
  lemma RootDetermines(cr: Crypto, l: Ledger, m: Ledger)
    requires Valid(l) && Valid(m) && Separable(TablesOf(l), TablesOf(m))
    requires NoCollision(cr, {RootInput(TablesOf(l)), RootInput(TablesOf(m))})
    ensures StateRoot(cr, l) == StateRoot(cr, m) <==> l.accounts == m.accounts && l.names == m.names
  {
    hide WellFormed, Separable, RootInput, TablesOf, Valid, ToMap;
    TablesAreWellFormed(l);
    TablesAreWellFormed(m);
    RootInputDetermines(TablesOf(l), TablesOf(m));
    if l.accounts == m.accounts && l.names == m.names {
      TablesIgnoreChain(l, m);
    }
  }

  lemma TablesIgnoreChain(l: Ledger, m: Ledger)
    requires l.accounts == m.accounts && l.names == m.names
    ensures TablesOf(l) == TablesOf(m)
  {
  }

  /** Two stored blocks that state the same root lead to the same accounts and names, on any chains. */
  lemma HeaderPinsState(cr: Crypto, g: Genesis, c: Chain, h: nat, f: Genesis, d: Chain, k: nat)
    requires Grown(cr, g, c) && 1 <= h < |c.blocks| && Grown(cr, f, d) && 1 <= k < |d.blocks|
    requires c.blocks[h].header.stateRoot == d.blocks[k].header.stateRoot
    requires var s, t := TablesOf(LedgerBelow(cr, g, c, h + 1)), TablesOf(LedgerBelow(cr, f, d, k + 1));
      Separable(s, t) && NoCollision(cr, {RootInput(s), RootInput(t)})
    ensures var l, m := LedgerBelow(cr, g, c, h + 1), LedgerBelow(cr, f, d, k + 1);
      l.accounts == m.accounts && l.names == m.names
  {
    hide Grown, LedgerBelow, StateRoot, TablesOf, Separable, NoCollision, RootInput;
    StoredRoot(cr, g, c, h);
    StoredRoot(cr, f, d, k);
    RootDetermines(cr, LedgerBelow(cr, g, c, h + 1), LedgerBelow(cr, f, d, k + 1));
  }

  lemma StoredRoot(cr: Crypto, g: Genesis, c: Chain, h: nat)
    requires Grown(cr, g, c) && 1 <= h < |c.blocks|
    ensures var l := LedgerBelow(cr, g, c, h + 1); Valid(l) && StateRoot(cr, l) == c.blocks[h].header.stateRoot
  {
    hide Grown, StateRoot, PostLedger, ExecTxs, TxRoot, RunsAt, Linked, Led, Priced, Sealed, Replay, Valid;
    EveryBlockIsEarned(cr, g, c, h);
    ReplayStep(cr, g, c.blocks, h);
    LedgerStaysValid(cr, g, c.blocks[..h + 1]);
  }
}
