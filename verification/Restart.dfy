/** Restarting within the first liveness window (src/chain.c:349-379, 394-417, 456-463). */
module Restart {
  import opened Words
  import opened Types
  import opened Table
  import opened Ledgers
  import opened Quorum
  import opened Chains
  import opened Liveness

  /** The entries of `live` whose address has signed none of the stored blocks. */
  function Silent(live: seq<LiveEntry>, blocks: seq<Block>): seq<Bytes> {
    if live == [] then []
    else
      var a := live[|live| - 1].addr;
      Silent(live[..|live| - 1], blocks) + if Latest(blocks, 1, |blocks|, a) == 0 then [a] else []
  }

  /** The genesis validators that have not signed yet. */
  function SilentGenesis(g: Genesis, blocks: seq<Block>): seq<Bytes> {
    Silent(GenesisLive(g, |g.accounts|), blocks)
  }

  lemma {:induction false} SilentMembers(live: seq<LiveEntry>, blocks: seq<Block>, a: Bytes)
    ensures a in Silent(live, blocks) <==>
      exists i :: 0 <= i < |live| && live[i].addr == a && Latest(blocks, 1, |blocks|, live[i].addr) == 0
  {
    hide Latest;
    if live != [] {
      var init, e := live[..|live| - 1], live[|live| - 1];
      SilentMembers(init, blocks, a);
      assert forall i :: 0 <= i < |init| ==> init[i] == live[i];
      assert live[|live| - 1] == e;
    }
  }

  lemma {:induction false} SilentDistinct(live: seq<LiveEntry>, blocks: seq<Block>)
    requires DistinctLive(live)
    ensures Distinct(Silent(live, blocks))
  {
    hide Latest;
    if live != [] {
      var init := live[..|live| - 1];
      SilentDistinct(init, blocks);
      SilentMembers(init, blocks, live[|live| - 1].addr);
    }
  }

  /** Everything the theorems ask of a chain: at most 256 participants from a distinct genesis. */
  ghost predicate Small(cr: Crypto, g: Genesis, c: Chain, everyone: set<Addr>) {
    && Grown(cr, g, c) && DistinctGenesis(g) && |everyone| <= MAX_LIVE
    && Addrs(GenesisLive(g, |g.accounts|)) <= everyone && Known(c.blocks, 1, |c.blocks|, everyone)
  }

  /** In the first window, the rebuilt map holds who signed, the kept one also the silent genesis validators. */
  lemma EarlyMembers(cr: Crypto, g: Genesis, c: Chain, everyone: set<Addr>, a: Addr)
    requires Small(cr, g, c, everyone) && Height(c) < LIVENESS_WINDOW
    ensures DistinctLive(c.live) && DistinctLive(RebuildLive(c.blocks))
    ensures a in LiveAddrs(RebuildLive(c.blocks), Height(c)) <==> Latest(c.blocks, 1, |c.blocks|, a) > 0
    ensures a in SilentGenesis(g, c.blocks) ==> Latest(c.blocks, 1, |c.blocks|, a) == 0
    ensures a in LiveAddrs(c.live, Height(c)) <==>
      a in LiveAddrs(RebuildLive(c.blocks), Height(c)) || a in SilentGenesis(g, c.blocks)
  {
    hide Grown, GenesisLive, Fold, Latest, LiveAddrs, Silent, Addrs, Known, DistinctLive;
    var n := |c.blocks|;
    LiveMapIsLatest(cr, g, c, a, everyone);
    GenesisEntry(g, a);
    assert DistinctLive([]) && Addrs([]) == {} by { NobodyYet(); }
    FoldEntry([], c.blocks, 1, n, a, everyone);
    EntryIsMembership(c.live, Height(c), a);
    EntryIsMembership(RebuildLive(c.blocks), Height(c), a);
    SilentMembers(GenesisLive(g, |g.accounts|), c.blocks, a);
  }

  lemma NobodyYet()
    ensures DistinctLive([]) && Addrs([]) == {}
  {
  }

  lemma EarlyLists(cr: Crypto, g: Genesis, c: Chain, l: Ledger, everyone: set<Addr>)
    requires Small(cr, g, c, everyone) && Height(c) < LIVENESS_WINDOW
    ensures WeightOf(l, LiveAddrs(c.live, Height(c))) ==
      WeightOf(l, LiveAddrs(RebuildLive(c.blocks), Height(c))) + WeightOf(l, SilentGenesis(g, c.blocks))
  {
    hide Small, Latest, LiveAddrs, Silent, Share, RebuildLive, DistinctLive;
    var s, r := LiveAddrs(c.live, Height(c)), LiveAddrs(RebuildLive(c.blocks), Height(c));
    var u := SilentGenesis(g, c.blocks);
    EarlyMembers(cr, g, c, everyone, ZERO_HASH);
    LiveAddrsDistinct(c.live, Height(c));
    LiveAddrsDistinct(RebuildLive(c.blocks), Height(c));
    GenesisIsDistinct(cr, g, c, everyone);
    SilentDistinct(GenesisLive(g, |g.accounts|), c.blocks);
    forall a | a in s || a in r || a in u ensures a in s <==> a in r + u {
      AddressIn(g, c, a);
      EarlyMembers(cr, g, c, everyone, a);
    }
    assert Distinct(r + u) by {
      forall a | a in r && a in u ensures false {
        AddressIn(g, c, a);
        EarlyMembers(cr, g, c, everyone, a);
      }
      AppendDistinct(r, u);
    }
    ShareSubset(l.accounts, Weight, s, r + u);
    ShareSubset(l.accounts, Weight, r + u, s);
    ShareAppend(l.accounts, Weight, r, u);
  }

  lemma GenesisIsDistinct(cr: Crypto, g: Genesis, c: Chain, everyone: set<Addr>)
    requires Small(cr, g, c, everyone)
    ensures DistinctLive(GenesisLive(g, |g.accounts|))
  {
    hide Grown, GenesisLive, Known;
    GenesisEntry(g, ZERO_HASH);
  }

  lemma AddressIn(g: Genesis, c: Chain, a: Bytes)
    requires c.blocks != []
    requires a in LiveAddrs(c.live, Height(c)) || a in LiveAddrs(RebuildLive(c.blocks), Height(c))
      || a in SilentGenesis(g, c.blocks)
    ensures |a| == 32
  {
    hide LiveAddrs, Silent, RebuildLive, Latest, GenesisLive;
    if a in LiveAddrs(c.live, Height(c)) {
      AddressOf(c.live, Height(c), a);
    } else if a in LiveAddrs(RebuildLive(c.blocks), Height(c)) {
      AddressOf(RebuildLive(c.blocks), Height(c), a);
    } else {
      SilentMembers(GenesisLive(g, |g.accounts|), c.blocks, a);
    }
  }

  /**
   Below height 16 a restart keeps the live weight if and only if the silent genesis validators weigh
   nothing, or nobody who signed weighs anything and they are the whole total.
   */
  lemma EarlyRestartKeepsIff(cr: Crypto, g: Genesis, c: Chain, l: Ledger, everyone: set<Addr>)
    requires Small(cr, g, c, everyone) && Height(c) < LIVENESS_WINDOW
    ensures var signed := WeightOf(l, LiveAddrs(RebuildLive(c.blocks), Height(c)));
      var silent := WeightOf(l, SilentGenesis(g, c.blocks));
      LiveWeight(l, RebuildLive(c.blocks), Height(c)) == LiveWeight(l, c.live, Height(c)) <==>
        silent == 0 || (signed == 0 && silent == TotalWeight(l) % W64)
  {
    hide Small, LiveAddrs, Silent, WeightOf, TotalWeight, RebuildLive;
    EarlyLists(cr, g, c, l, everyone);
  }

  /**
   The forgotten weight: once a validator with weight has signed, a restart lowers the denominator by
   exactly the weight of the genesis validators that have not.
   */
  lemma EarlyRestartForgetsGenesis(cr: Crypto, g: Genesis, c: Chain, l: Ledger, everyone: set<Addr>)
    requires Small(cr, g, c, everyone) && Height(c) < LIVENESS_WINDOW
    requires WeightOf(l, LiveAddrs(RebuildLive(c.blocks), Height(c))) > 0
    ensures LiveWeight(l, RebuildLive(c.blocks), Height(c)) + WeightOf(l, SilentGenesis(g, c.blocks)) ==
      LiveWeight(l, c.live, Height(c))
  {
    hide Small, LiveAddrs, Silent, WeightOf, TotalWeight, RebuildLive;
    EarlyLists(cr, g, c, l, everyone);
  }
}
