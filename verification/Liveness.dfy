/** The liveness map over whole runs and across restarts (src/chain.c:335-417, 448-464). */
module Liveness {
  import opened Words
  import opened Types
  import opened Table
  import opened Ledgers
  import opened Quorum
  import opened Chains

  /** The height recorded for an address. */
  function Entry(live: seq<LiveEntry>, a: Addr): Option<U64> {
    var i := Position(live, a);
    if i < |live| then Some(live[i].last) else None
  }

  function Addrs(live: seq<LiveEntry>): set<Addr> {
    set i | 0 <= i < |live| :: live[i].addr
  }

  predicate SignedBy(ss: seq<Signer>, a: Addr) {
    exists i :: 0 <= i < |ss| && ss[i].signer == a
  }

  /** The greatest height in `lo..n` whose block `a` signed, or 0. */
  function Latest(blocks: seq<Block>, lo: nat, n: nat, a: Addr): (h: nat)
    requires n <= |blocks|
    ensures h == 0 || lo <= h < n
  {
    if n <= lo then 0
    else if SignedBy(blocks[n - 1].signers, a) then n - 1
    else Latest(blocks, lo, n - 1, a)
  }

  /** Records the signers of the blocks `lo..n` on top of `live`. */
  function Fold(live: seq<LiveEntry>, blocks: seq<Block>, lo: nat, n: nat): seq<LiveEntry>
    requires n <= |blocks|
  {
    if n <= lo then live
    else RecordSigners(Fold(live, blocks, lo, n - 1), blocks[n - 1].signers, blocks[n - 1].header.height)
  }

  // ---------------------------------------------------------------------------
  // One entry per address
  // ---------------------------------------------------------------------------

  lemma RecordKeepsDistinct(live: seq<LiveEntry>, a: Addr, h: U64)
    requires DistinctLive(live)
    ensures DistinctLive(RecordSigner(live, a, h))
  {
  }

  lemma {:induction false} RecordSignersKeepsDistinct(live: seq<LiveEntry>, ss: seq<Signer>, h: U64)
    requires DistinctLive(live)
    ensures DistinctLive(RecordSigners(live, ss, h))
  {
    hide RecordSigner, DistinctLive;
    if ss != [] {
      RecordSignersKeepsDistinct(live, ss[..|ss| - 1], h);
      RecordKeepsDistinct(RecordSigners(live, ss[..|ss| - 1], h), ss[|ss| - 1].signer, h);
    }
  }

  predicate DistinctGenesis(g: Genesis) {
    forall i, j :: 0 <= i < j < |g.accounts| ==> g.accounts[i].addr != g.accounts[j].addr
  }

  lemma {:induction false} GenesisLiveFacts(g: Genesis, n: nat)
    requires DistinctGenesis(g) && n <= |g.accounts|
    ensures DistinctLive(GenesisLive(g, n))
    ensures forall i :: 0 <= i < |GenesisLive(g, n)| ==>
      GenesisLive(g, n)[i].last == 0 && exists j :: 0 <= j < n && g.accounts[j].addr == GenesisLive(g, n)[i].addr
  {
    if n > 0 {
      GenesisLiveFacts(g, n - 1);
    }
  }

  /** No address has two entries, in any run. */
  lemma {:induction false} LiveMapIsDistinct(cr: Crypto, g: Genesis, blocks: seq<Block>)
    requires DistinctGenesis(g)
    ensures DistinctLive(Replay(cr, g, blocks).live)
  {
    hide DistinctLive, GenesisLive, PostLedger, Entries, RecordSigners;
    if |blocks| <= 1 {
      GenesisLiveFacts(g, |g.accounts|);
    } else {
      var c, b := Replay(cr, g, blocks[..|blocks| - 1]), blocks[|blocks| - 1];
      LiveMapIsDistinct(cr, g, blocks[..|blocks| - 1]);
      RecordSignersKeepsDistinct(c.live, b.signers, b.header.height);
    }
  }

  // ---------------------------------------------------------------------------
  // The latest signing height, once
  // ---------------------------------------------------------------------------

  lemma {:induction false} AddrsSize(live: seq<LiveEntry>)
    requires DistinctLive(live)
    ensures |Addrs(live)| == |live|
  {
    if live != [] {
      var init := live[..|live| - 1];
      AddrsSize(init);
      SameAddrs(init, live, live[|live| - 1].addr);
      assert live[|live| - 1].addr !in Addrs(init);
    }
  }

  lemma SubsetSize(s: set<Addr>, t: set<Addr>)
    requires s < t
    ensures |s| < |t|
  {
    assert t == s + (t - s);
    assert |t| == |s| + |t - s|;
  }

  /** Recording a member of a set of at most 256 addresses always finds room. */
  lemma RecordEntry(live: seq<LiveEntry>, a: Addr, h: U64, b: Addr, everyone: set<Addr>)
    requires DistinctLive(live) && Addrs(live) <= everyone && a in everyone && |everyone| <= MAX_LIVE
    ensures var r := RecordSigner(live, a, h); var before := Entry(live, a);
      && Addrs(r) <= everyone && DistinctLive(r)
      && Entry(r, b) == if b != a then Entry(live, b)
                        else if before.Some? && before.value >= h then before
                        else Some(h)
  {
    RecordKeepsDistinct(live, a, h);
    if Position(live, a) == |live| {
      HasRoom(live, a, everyone);
    }
    EntryAfterRecord(live, a, h, b);
  }

  lemma HasRoom(live: seq<LiveEntry>, a: Addr, everyone: set<Addr>)
    requires DistinctLive(live) && Addrs(live) <= everyone && a in everyone && |everyone| <= MAX_LIVE
    requires Position(live, a) == |live|
    ensures |live| < MAX_LIVE
  {
    hide Position;
    AddrsSize(live);
    assert a !in Addrs(live);
    SubsetSize(Addrs(live), everyone);
  }

  lemma EntryAfterRecord(live: seq<LiveEntry>, a: Addr, h: U64, b: Addr)
    requires DistinctLive(live) && (Position(live, a) == |live| ==> |live| < MAX_LIVE)
    ensures var r := RecordSigner(live, a, h); var before := Entry(live, a);
      && Addrs(r) == Addrs(live) + {a}
      && Entry(r, b) == if b != a then Entry(live, b)
                        else if before.Some? && before.value >= h then before
                        else Some(h)
  {
    var r, i := RecordSigner(live, a, h), Position(live, a);
    var j, k := Position(live, b), Position(r, b);
    hide Position;
    assert forall m :: 0 <= m < |live| ==> r[m].addr == live[m].addr;
    if i == |live| {
      assert r == live + [LiveEntry(a, h)];
    } else {
      assert |r| == |live|;
    }
    SameAddrs(live, r, a);
  }

  lemma SameAddrs(live: seq<LiveEntry>, r: seq<LiveEntry>, a: Addr)
    requires |live| <= |r| <= |live| + 1 && forall m :: 0 <= m < |live| ==> r[m].addr == live[m].addr
    requires if |r| == |live| then exists m :: 0 <= m < |live| && live[m].addr == a else r[|live|].addr == a
    ensures Addrs(r) == Addrs(live) + {a}
  {
    forall x | x in Addrs(live) + {a} ensures x in Addrs(r) {
      if x in Addrs(live) {
        var m :| 0 <= m < |live| && live[m].addr == x;
        assert r[m].addr == x;
      }
    }
    forall x | x in Addrs(r) ensures x in Addrs(live) + {a} {
      var m :| 0 <= m < |r| && r[m].addr == x;
      if m < |live| {
        assert live[m].addr == x;
      }
    }
  }

  lemma {:induction false} RecordSignersEntry(live: seq<LiveEntry>, ss: seq<Signer>, h: U64, b: Addr,
      everyone: set<Addr>)
    requires DistinctLive(live) && Addrs(live) <= everyone && |everyone| <= MAX_LIVE
    requires forall i :: 0 <= i < |ss| ==> ss[i].signer in everyone
    requires Entry(live, b).Some? ==> Entry(live, b).value <= h
    ensures var r := RecordSigners(live, ss, h);
      && DistinctLive(r) && Addrs(r) <= everyone
      && Entry(r, b) == if SignedBy(ss, b) then Some(h) else Entry(live, b)
  {
    hide DistinctLive, Addrs, Entry, RecordSigner;
    if ss != [] {
      var init, last := ss[..|ss| - 1], ss[|ss| - 1].signer;
      RecordSignersEntry(live, init, h, b, everyone);
      var r := RecordSigners(live, init, h);
      RecordEntry(r, last, h, b, everyone);
      assert SignedBy(ss, b) <==> SignedBy(init, b) || last == b by {
        assert forall i :: 0 <= i < |init| ==> init[i] == ss[i];
        assert ss[|ss| - 1].signer == last;
      }
    }
  }

  /** All signers of the blocks `lo..n` are in `everyone`, and block `h` says it has height `h`. */
  ghost predicate Known(blocks: seq<Block>, lo: nat, n: nat, everyone: set<Addr>)
    requires n <= |blocks|
  {
    forall h :: lo <= h < n ==>
      blocks[h].header.height == h
        && forall i :: 0 <= i < |blocks[h].signers| ==> blocks[h].signers[i].signer in everyone
  }

  /** The fold holds each signer's latest height, and otherwise what was there before. */
  lemma {:induction false} FoldEntry(live: seq<LiveEntry>, blocks: seq<Block>, lo: nat, n: nat, a: Addr,
      everyone: set<Addr>)
    requires 1 <= lo && n <= |blocks| && Known(blocks, lo, n, everyone)
    requires DistinctLive(live) && Addrs(live) <= everyone && |everyone| <= MAX_LIVE
    requires Entry(live, a).Some? ==> Entry(live, a).value == 0
    ensures var f := Fold(live, blocks, lo, n);
      && DistinctLive(f) && Addrs(f) <= everyone
      && Entry(f, a) == if Latest(blocks, lo, n, a) > 0 then Some(Latest(blocks, lo, n, a)) else Entry(live, a)
  {
    hide DistinctLive, Addrs, Entry, RecordSigners, SignedBy;
    if n > lo {
      FoldEntry(live, blocks, lo, n - 1, a, everyone);
      RecordSignersEntry(Fold(live, blocks, lo, n - 1), blocks[n - 1].signers, blocks[n - 1].header.height, a,
        everyone);
    }
  }

  lemma {:induction false} ReplayIsFold(cr: Crypto, g: Genesis, blocks: seq<Block>, n: nat)
    requires 1 <= n <= |blocks|
    ensures Replay(cr, g, blocks[..n]).live == Fold(GenesisLive(g, |g.accounts|), blocks, 1, n)
  {
    hide GenesisLive, RecordSigners, PostLedger;
    if n > 1 {
      ReplayIsFold(cr, g, blocks, n - 1);
      assert blocks[..n][..n - 1] == blocks[..n - 1];
    }
  }

  lemma GenesisEntry(g: Genesis, a: Addr)
    requires DistinctGenesis(g)
    ensures DistinctLive(GenesisLive(g, |g.accounts|))
    ensures Entry(GenesisLive(g, |g.accounts|), a).Some? ==> Entry(GenesisLive(g, |g.accounts|), a).value == 0
  {
    hide GenesisLive;
    GenesisLiveFacts(g, |g.accounts|);
  }

  /**
   While at most 256 addresses ever took part, the map holds exactly one entry per participant: the
   height of its latest signature, or 0 for a genesis validator that has not signed.
   */
  lemma LiveMapIsLatest(cr: Crypto, g: Genesis, c: Chain, a: Addr, everyone: set<Addr>)
    requires Grown(cr, g, c) && DistinctGenesis(g) && |everyone| <= MAX_LIVE
    requires Addrs(GenesisLive(g, |g.accounts|)) <= everyone && Known(c.blocks, 1, |c.blocks|, everyone)
    ensures DistinctLive(c.live)
    ensures var h := Latest(c.blocks, 1, |c.blocks|, a);
      Entry(c.live, a) == if h > 0 then Some(h) else Entry(GenesisLive(g, |g.accounts|), a)
  {
    hide GenesisLive, Fold, Entry, DistinctLive, Addrs, Latest, Known, Accepted;
    GenesisEntry(g, a);
    assert c.blocks[..|c.blocks|] == c.blocks;
    ReplayIsFold(cr, g, c.blocks, |c.blocks|);
    FoldEntry(GenesisLive(g, |g.accounts|), c.blocks, 1, |c.blocks|, a, everyone);
  }

  // ---------------------------------------------------------------------------
  // Restart
  // ---------------------------------------------------------------------------

  /** The first height whose signers a restarted node replays (src/chain.c:405-412). */
  function WindowStart(height: nat): nat {
    if height < LIVENESS_WINDOW then 1 else height + 1 - LIVENESS_WINDOW
  }

  /** The map a restarted node rebuilds from the stored blocks. */
  function RebuildLive(blocks: seq<Block>): seq<LiveEntry>
    requires blocks != []
  {
    Fold([], blocks, WindowStart(|blocks| - 1), |blocks|)
  }

  lemma {:induction false} LatestFromWindow(blocks: seq<Block>, lo: nat, n: nat, a: Addr)
    requires 1 <= lo && n <= |blocks|
    ensures Latest(blocks, lo, n, a) == if Latest(blocks, 1, n, a) >= lo then Latest(blocks, 1, n, a) else 0
  {
    hide SignedBy;
    if n > 1 {
      LatestFromWindow(blocks, lo, n - 1, a);
    }
  }

  lemma EntryIsMembership(live: seq<LiveEntry>, height: nat, a: Addr)
    requires DistinctLive(live)
    ensures a in LiveAddrs(live, height) <==> Entry(live, a).Some? && Within(height, Entry(live, a).value)
  {
    LiveAddrsDistinct(live, height);
    var i := Position(live, a);
    if i < |live| {
      assert live[i].addr == a;
    }
  }

  lemma {:induction false} LiveAddrsAreAddrs(live: seq<LiveEntry>, height: nat, i: nat)
    requires i < |LiveAddrs(live, height)|
    ensures |LiveAddrs(live, height)[i]| == 32
  {
    if live != [] && i < |LiveAddrs(live[..|live| - 1], height)| {
      LiveAddrsAreAddrs(live[..|live| - 1], height, i);
    }
  }

  /** From height 16 on, a restarted node uses exactly the denominator of a node that never stopped. */
  lemma RestartKeepsLiveWeight(cr: Crypto, g: Genesis, c: Chain, l: Ledger, everyone: set<Addr>)
    requires Grown(cr, g, c) && DistinctGenesis(g) && |everyone| <= MAX_LIVE
    requires Addrs(GenesisLive(g, |g.accounts|)) <= everyone && Known(c.blocks, 1, |c.blocks|, everyone)
    requires Height(c) >= LIVENESS_WINDOW
    ensures LiveWeight(l, RebuildLive(c.blocks), Height(c)) == LiveWeight(l, c.live, Height(c))
  {
    hide Grown, GenesisLive, Fold, Entry, DistinctLive, Addrs, Latest, LiveAddrs, TotalWeight;
    var height := Height(c);
    var kept, rebuilt := c.live, RebuildLive(c.blocks);
    forall a: Addr
      ensures DistinctLive(kept) && DistinctLive(rebuilt)
      ensures a in LiveAddrs(kept, height) <==> a in LiveAddrs(rebuilt, height)
    {
      SameLiveEntry(cr, g, c, a, everyone);
      EntryIsMembership(kept, height, a);
      EntryIsMembership(rebuilt, height, a);
    }
    var s, t := LiveAddrs(kept, height), LiveAddrs(rebuilt, height);
    SameLiveEntry(cr, g, c, ZERO_HASH, everyone);
    LiveAddrsDistinct(kept, height);
    LiveAddrsDistinct(rebuilt, height);
    forall a | a in s ensures a in t { AddressOf(kept, height, a); }
    forall a | a in t ensures a in s { AddressOf(rebuilt, height, a); }
    ShareSubset(l.accounts, Weight, s, t);
    ShareSubset(l.accounts, Weight, t, s);
  }

  lemma AddressOf(live: seq<LiveEntry>, height: nat, a: Bytes)
    requires a in LiveAddrs(live, height)
    ensures |a| == 32
  {
    var i :| 0 <= i < |LiveAddrs(live, height)| && LiveAddrs(live, height)[i] == a;
    LiveAddrsAreAddrs(live, height, i);
  }

  lemma SameLiveEntry(cr: Crypto, g: Genesis, c: Chain, a: Addr, everyone: set<Addr>)
    requires Grown(cr, g, c) && DistinctGenesis(g) && |everyone| <= MAX_LIVE
    requires Addrs(GenesisLive(g, |g.accounts|)) <= everyone && Known(c.blocks, 1, |c.blocks|, everyone)
    requires Height(c) >= LIVENESS_WINDOW
    ensures DistinctLive(c.live) && DistinctLive(RebuildLive(c.blocks))
    ensures var e, r := Entry(c.live, a), Entry(RebuildLive(c.blocks), a);
      (e.Some? && Within(Height(c), e.value)) <==> (r.Some? && Within(Height(c), r.value))
  {
    hide Grown, GenesisLive, Fold, Latest;
    var n := |c.blocks|;
    LiveMapIsLatest(cr, g, c, a, everyone);
    GenesisEntry(g, a);
    FoldEntry([], c.blocks, WindowStart(n - 1), n, a, everyone);
    LatestFromWindow(c.blocks, WindowStart(n - 1), n, a);
  }
}
