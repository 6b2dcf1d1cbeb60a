/**
 The chain as a stateful machine (src/chain.c): tip fields, live map, seed cache, indices, speculative
 execution and rollback. Every method is proved against the functions of Chains.dfy.

 Stored blocks are a sequence indexed by height; reading and writing files never fails.
 */
module ChainStore {
  import opened Words
  import opened Types
  import opened Codec
  import opened Isqrt
  import opened Table
  import opened Ledgers
  import opened Snapshots
  import opened Market
  import opened Quorum
  import opened Chains
  import opened StateStore
  import opened TxIndex
  import opened Liveness
  import Nonces
  import A = Agreement

  class LiveChain {
    const cr: Crypto
    const chainId: U64
    const genesisMs: U64
    const state: Store
    const live: array<LiveEntry>
    const index: Index
    var liveN: nat
    var blocks: seq<Block>
    var height: nat
    var tipHash: Hash
    var lastSlot: U64
    var baseFee: U64
    var cachedValid: bool
    var cachedEpoch: nat
    var cachedSeed: Hash

    /** The tip fields describe the last stored block, and a valid cache holds the right seed. */
    ghost predicate Valid()
      reads this, state, index
    {
      && state.Valid() && index.Valid() && state.chainId == chainId
      && live.Length == MAX_LIVE && liveN <= MAX_LIVE
      && TipFields() && CacheCoherent()
    }

    ghost predicate TipFields()
      reads this
    {
      && |blocks| == height + 1
      && tipHash == BlockHash(cr, blocks[height].header)
      && lastSlot == blocks[height].header.slot && baseFee == blocks[height].header.baseFee
    }

    ghost predicate CacheCoherent()
      reads this
    {
      cachedValid ==> blocks != [] && cachedSeed == EpochSeed(cr, chainId, genesisMs, blocks, cachedEpoch)
    }

    ghost function LiveMap(): seq<LiveEntry>
      reads this, live
      requires live.Length == MAX_LIVE && liveN <= MAX_LIVE
    {
      live[..liveN]
    }

    ghost function Model(): (c: Chain)
      reads this, state, index, live
      requires Valid()
      ensures c.blocks != [] && Height(c) == height && c.genesisMs == genesisMs && c.ledger == state.Model()
    {
      Chain(chainId, genesisMs, blocks, state.Model(), LiveMap(), index.log)
    }

    /** `chain_apply_genesis` on an empty state. */
    constructor (crypto: Crypto, g: Genesis)
      ensures Valid() && Model() == GenesisChain(crypto, g) && cr == crypto
      ensures fresh(state) && fresh(live) && fresh(index)
    {
      hide WellFormed, ToLedger, GenesisLedger, GenesisLive, BlockHash, StateRoot;
      var s := new Store(g.chainId);
      var lv := new LiveEntry[MAX_LIVE];
      var n := ApplyGenesis(s, lv, g);
      var root := s.Root(crypto);
      var b := Block(Header(BLOCK_VERSION, 0, 0, ZERO_HASH, g.timestampMs, ZERO_HASH, ZERO_SIG, root, ZERO_HASH,
                            MIN_BASE_FEE, 0, BLOCK_GAS_LIMIT, 0), [], []);
      cr, chainId, genesisMs := crypto, g.chainId, g.timestampMs;
      state, live, liveN := s, lv, n;
      index := new Index();
      blocks, height, tipHash := [b], 0, BlockHash(crypto, b.header);
      lastSlot, baseFee := 0, MIN_BASE_FEE;
      cachedValid, cachedEpoch, cachedSeed := false, 0, ZERO_HASH;
    }

    /**
     `ac_chain_open` on an existing data directory: the ledger comes from its snapshot, the live map and the
     index from the stored blocks.
     */
    constructor Reopen(crypto: Crypto, id: U64, startMs: U64, stored: seq<Block>, snap: Bytes, ghost t: Tables)
      requires WellFormed(t) && Fits(t) && snap == SnapshotBytes(id, t)
      requires stored != [] && forall h :: 1 <= h < |stored| ==> stored[h].header.height == h
      ensures Valid() && cr == crypto && fresh(state) && fresh(live) && fresh(index)
      ensures Model() ==
        Chain(id, startMs, stored, ToLedger(id, t), RebuildLive(stored), Nonces.ScanIndex(crypto, stored))
    {
      hide WellFormed, ToLedger, BlockHash, Fits, SnapshotBytes, Restore, RebuildLive, Nonces.ScanIndex;
      var s := new Store(id);
      RestoreSnapshot(id, t, Tables(s.accounts, s.names));
      var ok := s.Deserialize(snap);
      var tip := stored[|stored| - 1].header;
      cr, chainId, genesisMs := crypto, id, startMs;
      state, live, liveN := s, new LiveEntry[MAX_LIVE], 0;
      index := new Index();
      blocks, height, tipHash := stored, |stored| - 1, BlockHash(crypto, tip);
      lastSlot, baseFee := tip.slot, tip.baseFee;
      cachedValid, cachedEpoch, cachedSeed := false, 0, ZERO_HASH;
      new;
      Rebuild();
    }

    /** `tx_index_rebuild` on an empty index and live map. */
    method Rebuild()
      requires Valid() && liveN == 0 && index.log == []
      requires forall h :: 1 <= h < |blocks| ==> blocks[h].header.height == h
      modifies this`liveN, live, index
      ensures Valid() && LiveMap() == RebuildLive(blocks) && index.log == Nonces.ScanIndex(cr, blocks)
    {
      hide BlockHash, EpochSeed, WellFormed, RecordSigners, Entries, Nonces.ScanIndex;
      NothingScanned(cr, blocks);
      var h := 1;
      while h <= height
        invariant 1 <= h <= height + 1 && Valid()
        invariant index.log == Nonces.ScanIndex(cr, blocks[..h])
        invariant LiveMap() == Fold([], blocks, WindowStart(height), h)
      {
        ScanStep(cr, blocks, h);
        IndexBlock(blocks[h]);
        if blocks[h].header.height + LIVENESS_WINDOW > height {
          RecordLive(blocks[h]);
        }
        h := h + 1;
      }
      assert blocks[..|blocks|] == blocks;
    }

    /** `ac_chain_tx_find`: an entry of the index with this hash, if there is one. */
    method TxFind(hash: Hash) returns (r: Option<TxEntry>)
      requires Valid()
      modifies index`rows, index`sorted
      ensures Valid() && Model() == old(Model())
      ensures r.Some? ==> r.value in Model().index && r.value.hash == hash
      ensures r.None? ==> forall e :: e in Model().index ==> e.hash != hash
    {
      hide BlockHash, EpochSeed, WellFormed;
      r := index.Find(hash);
    }

    // -------------------------------------------------------------------------
    // Liveness map and weights
    // -------------------------------------------------------------------------

    method LiveRecordSigner(a: Addr, h: U64)
      requires Valid()
      modifies this`liveN, live
      ensures Valid() && LiveMap() == RecordSigner(old(LiveMap()), a, h)
    {
      hide BlockHash, EpochSeed, WellFormed;
      ghost var before := LiveMap();
      var i := 0;
      while i < liveN && live[i].addr != a
        invariant i <= liveN
        invariant forall j :: 0 <= j < i ==> live[j].addr != a
        modifies {}
      {
        i := i + 1;
      }
      PositionIs(before, a, i);
      if i < liveN {
        if h > live[i].last {
          live[i] := LiveEntry(a, h);
        }
        assert live[..liveN] == RecordSigner(before, a, h);
      } else if liveN < MAX_LIVE {
        live[liveN] := LiveEntry(a, h);
        liveN := liveN + 1;
        assert live[..liveN] == before + [LiveEntry(a, h)];
      }
    }

    /** Wraps like the 64-bit accumulator of the source. */
    method TotalSqrtStake() returns (sum: U64)
      requires Valid()
      ensures sum == TotalWeight(state.Model()) % W64
    {
      hide BlockHash, EpochSeed, WellFormed, ToMap, RowSum, Total, Weight;
      sum := SumWeights(state.accounts);
      assert Sorted(state.accounts) by { TablesAreSorted(Tables(state.accounts, state.names)); }
      RowSumIsTotal(state.accounts, Weight);
    }

    method CountActive() returns (count: nat)
      requires Valid()
      ensures count == ActiveCount(state.Model())
    {
      hide BlockHash, EpochSeed, WellFormed, ToMap, RowSum, Total;
      var t := state.accounts;
      count := 0;
      assert RowSum([], Active) == 0 by { NoRows(); }
      for i := 0 to |t|
        invariant count == RowSum(t[..i], Active)
      {
        ActiveStep(t, i);
        if t[i].val.stake >= MIN_STAKE {
          count := count + 1;
        }
      }
      assert t[..|t|] == t;
      assert Sorted(t) by { TablesAreSorted(Tables(state.accounts, state.names)); }
      RowSumIsTotal(t, Active);
    }

    /** Falls back to the total when no live validator has stake. */
    method LiveSqrtStake() returns (sum: U64)
      requires Valid()
      ensures sum == LiveWeight(state.Model(), LiveMap(), height)
    {
      hide BlockHash, EpochSeed, WellFormed, ToLedger, Sqrt, TotalWeight;
      ghost var l, lm := state.Model(), LiveMap();
      var counted := 0;
      sum := 0;
      for i := 0 to liveN
        invariant sum == WeightOf(l, LiveAddrs(lm[..i], height)) <= i * SQRT_MAX
        invariant counted == 0 <==> sum == 0
      {
        assert lm[..i + 1][..i] == lm[..i];
        var e := live[i];
        LiveAddrsStep(l, lm[..i], e, height);
        assert lm[..i + 1] == lm[..i] + [e];
        if Within(height, e.last) {
          var acc, found := state.Get(e.addr);
          WeightFits(acc);
          if found && acc.stake >= MIN_STAKE {
            var w := IsqrtU64(acc.stake);
            sum := sum + w;
            counted := counted + 1;
          }
        }
      }
      assert lm[..liveN] == lm;
      if counted == 0 {
        sum := TotalSqrtStake();
      }
    }

    // -------------------------------------------------------------------------
    // Epoch seeds
    // -------------------------------------------------------------------------

    /** Scans down from the tip to the last block below the epoch. */
    method ComputeSeed(epoch: nat) returns (seed: Hash)
      requires Valid()
      ensures seed == EpochSeed(cr, chainId, genesisMs, blocks, epoch)
    {
      hide BlockHash, WellFormed;
      if epoch == 0 {
        return GenesisSeed(cr, chainId, genesisMs);
      }
      var start := (epoch * EPOCH_SLOTS) % W64;
      var h, found := height, 0;
      assert blocks[..height + 1] == blocks;
      while h > 0
        invariant 0 <= h <= height
        invariant LastBefore(blocks, start) == LastBefore(blocks[..h + 1], start)
      {
        assert blocks[..h + 1][..h] == blocks[..h];
        if blocks[h].header.slot < start {
          found := h;
          break;
        }
        h := h - 1;
      }
      if found == 0 && height > 0 && blocks[0].header.slot >= start {
        return GenesisSeed(cr, chainId, genesisMs);
      }
      return cr.hash(Ascii("AGCH:SEED") + blocks[found].header.vrfProof);
    }

    /** The cached form of `EpochSeed`, whatever was looked up or accepted before. */
    method Seed(epoch: nat) returns (seed: Hash)
      requires Valid()
      modifies this`cachedValid, this`cachedEpoch, this`cachedSeed
      ensures Valid() && Model() == old(Model())
      ensures seed == EpochSeed(cr, chainId, genesisMs, blocks, epoch)
    {
      hide BlockHash, WellFormed, EpochSeed;
      if cachedValid && cachedEpoch == epoch {
        return cachedSeed;
      }
      seed := ComputeSeed(epoch);
      cachedEpoch, cachedSeed, cachedValid := epoch, seed, true;
    }

    // -------------------------------------------------------------------------
    // Validation
    // -------------------------------------------------------------------------

    method LeaderProofOk(h: Header) returns (ok: bool)
      requires Valid()
      modifies this`cachedValid, this`cachedEpoch, this`cachedSeed
      ensures Valid() && Model() == old(Model()) && ok == LeaderOk(cr, Model(), h)
    {
      hide BlockHash, WellFormed, EpochSeed, ToLedger, VrfVerify, LeaderAlpha;
      var acc, found := state.Get(h.proposer);
      if !found || acc.stake < MIN_STAKE {
        return false;
      }
      var seed := Seed(Epoch(h.slot));
      return VrfVerify(cr, h.vrfProof, LeaderAlpha(seed, h.slot), h.proposer);
    }

    method HashAt(h: nat) returns (hash: Hash)
      requires Valid() && h <= height
      ensures hash == BlockHash(cr, blocks[h].header)
    {
      if h == height {
        return tipHash;
      }
      return BlockHash(cr, blocks[h].header);
    }

    method NextFee() returns (fee: U64)
      requires Valid()
      ensures fee == ExpectedBaseFee(Model())
    {
      hide BlockHash, WellFormed, EpochSeed, NextBaseFee;
      if height == 0 {
        return MIN_BASE_FEE;
      }
      var prev := blocks[height].header;
      if prev.gasLimit < 2 {
        return prev.baseFee;
      }
      return NextBaseFee(prev.baseFee, prev.gasUsed, prev.gasLimit);
    }

    /** Everything checked before execution. */
    method CheckHeader(h: Header, now: U64) returns (v: Verdict)
      requires Valid()
      modifies this`cachedValid, this`cachedEpoch, this`cachedSeed
      ensures Valid() && Model() == old(Model()) && v == HeaderVerdict(cr, Model(), h, now)
    {
      hide BlockHash, WellFormed, EpochSeed, LeaderOk, ExpectedBaseFee, ToLedger;
      if h.version != BLOCK_VERSION { return BadHeader; }
      if h.height == 0 { return Dup; }
      if h.height <= height {
        var stored := HashAt(h.height);
        return if stored == BlockHash(cr, h) then Dup else BadParent;
      }
      if h.height != height + 1 { return BadParent; }
      if h.parentHash != tipHash { return BadParent; }
      if h.slot <= lastSlot { return BadTime; }
      var start := Signed((genesisMs + h.slot * SLOT_MS) % W64);
      if Signed(h.timestampMs) < start - 3000 || Signed(h.timestampMs) > start + 3000 { return BadTime; }
      if h.timestampMs > (now + 1500) % W64 { return Future; }
      if h.gasLimit != BLOCK_GAS_LIMIT { return BadHeader; }
      var leader := LeaderProofOk(h);
      if !leader { return BadProposer; }
      var expected := NextFee();
      if h.baseFee < MIN_BASE_FEE { return BadHeader; }
      if (h.baseFee + 1) % W64 < expected || h.baseFee > (expected + 1) % W64 { return BadHeader; }
      return Ok;
    }

    /** The stakes of the listed signers, taken before execution. */
    method CaptureStakes(b: Block) returns (stakes: seq<U64>)
      requires Valid() && |b.signers| <= COMMITTEE_MAX
      ensures |stakes| == |b.signers|
      ensures forall i :: 0 <= i < |stakes| ==> stakes[i] == Ledgers.Get(state.Model(), b.signers[i].signer).stake
    {
      hide BlockHash, WellFormed, EpochSeed, ToLedger;
      stakes := [];
      for i := 0 to |b.signers|
        invariant |stakes| == i
        invariant forall j :: 0 <= j < i ==> stakes[j] == Ledgers.Get(state.Model(), b.signers[j].signer).stake
      {
        var acc, _ := state.Get(b.signers[i].signer);
        stakes := stakes + [acc.stake];
      }
    }

    /** The captured stake of a signer: the first entry of the list with its address. */
    method StakeOf(b: Block, stakes: seq<U64>, a: Addr, ghost pre: Ledger) returns (stake: U64)
      requires |stakes| == |b.signers|
      requires forall i :: 0 <= i < |stakes| ==> stakes[i] == Ledgers.Get(pre, b.signers[i].signer).stake
      ensures stake == if Listed(b.signers, a) then Ledgers.Get(pre, a).stake else 0
    {
      for i := 0 to |stakes|
        invariant forall j :: 0 <= j < i ==> b.signers[j].signer != a
      {
        if b.signers[i].signer == a {
          return stakes[i];
        }
      }
      return 0;
    }

    /**
     `validate_commit`: stakes and total from before the block, live weight from the current state, which
     is the one after it.
     */
    method ValidateCommit(b: Block, blockHash: Hash, preTotal: U64, stakes: seq<U64>,
        ghost pre: Ledger) returns (ok: bool)
      requires Valid() && |b.signers| <= COMMITTEE_MAX && |stakes| == |b.signers|
      requires blockHash == BlockHash(cr, b.header) && preTotal == TotalWeight(pre) % W64
      requires forall i :: 0 <= i < |stakes| ==> stakes[i] == Ledgers.Get(pre, b.signers[i].signer).stake
      modifies this`cachedValid, this`cachedEpoch, this`cachedSeed
      ensures Valid() && Model() == old(Model())
      ensures ok == CommitOk(cr, SeedFor(cr, Model(), b.header.slot), pre, state.Model(), LiveMap(), height, b)
    {
      hide BlockHash, WellFormed, EpochSeed, ToLedger, TotalWeight, LiveWeight, VoteMessage, CommitteeAlpha, Sqrt,
        SignerOk,
        VrfVerify, Draw, WeightOf, Weight;
      if b.signers == [] { return false; }
      if preTotal == 0 { return false; }
      var seed := Seed(Epoch(b.header.slot));
      var alpha, vote := CommitteeAlpha(seed, b.header.slot), VoteMessage(b.header.height, blockHash);
      var signed, i := 0, 0;
      WeightOfNone(pre);
      while i < |b.signers|
        modifies {}
        invariant i <= |b.signers|
        invariant signed == WeightOf(pre, SignerAddrs(b.signers)[..i]) <= i * SQRT_MAX
        invariant forall j :: 0 <= j < i ==> SignerOk(cr, pre, alpha, vote, preTotal, b.signers[j])
      {
        var s := b.signers[i];
        var stake := StakeOf(b, stakes, s.signer, pre);
        SignerOkIs(cr, pre, alpha, vote, preTotal, s);
        if stake < MIN_STAKE { return false; }
        var root := IsqrtU64(stake);
        if !VrfVerify(cr, s.proof, alpha, s.signer) { return false; }
        if !cr.eligible(Draw(cr, s.proof), root, preTotal) { return false; }
        if !cr.verify(s.sig, vote, s.signer) { return false; }
        SignedStep(pre, SignerAddrs(b.signers), i);
        WeightIs(Ledgers.Get(pre, s.signer));
        signed := signed + root;
        i := i + 1;
      }
      assert SignerAddrs(b.signers)[..i] == SignerAddrs(b.signers);
      var liveSum := LiveSqrtStake();
      if liveSum == 0 {
        liveSum := preTotal;
      }
      return signed * 3 >= (liveSum * 2) % W64 && signed * 2 > preTotal;
    }

    // -------------------------------------------------------------------------
    // Acceptance
    // -------------------------------------------------------------------------

    /** Applies every transaction to the state in place; stops at the first failure. */
    method Execute(b: Block) returns (ok: bool, gas: nat, tips: U64)
      requires Valid()
      modifies state
      ensures Valid() && state.chainId == old(state.chainId)
      ensures var x := ExecTxs(cr, old(state.Model()), b.txs, b.header.slot, b.header.baseFee);
        ok == x.Some? && (ok ==> state.Model() == x.value.ledger && gas == x.value.gas && tips == x.value.tips)
    {
      hide BlockHash, WellFormed, EpochSeed, ToLedger, Ledgers.ApplyTx, TxVerify;
      ghost var l := state.Model();
      gas, tips := 0, 0;
      var i := 0;
      while i < |b.txs|
        invariant i <= |b.txs| && Valid()
        invariant ExecTxs(cr, l, b.txs[..i], b.header.slot, b.header.baseFee) == Some(Exec(state.Model(), gas, tips))
      {
        assert b.txs[..i + 1][..i] == b.txs[..i];
        if !TxVerify(cr, b.txs[i]) {
          ExecStops(cr, l, b.txs, i, b.header.slot, b.header.baseFee);
          return false, gas, tips;
        }
        var r := state.ApplyTx(cr, b.txs[i], b.header.slot, b.header.baseFee);
        if r.Rejected? || gas + r.gas > BLOCK_GAS_LIMIT {
          ExecStops(cr, l, b.txs, i, b.header.slot, b.header.baseFee);
          return false, gas, tips;
        }
        gas, tips := gas + r.gas, (tips + r.tip) % W64;
        i := i + 1;
      }
      assert b.txs[..|b.txs|] == b.txs;
      return true, gas, tips;
    }

    /** Puts the state back from its own snapshot. */
    method Rollback(snap: Bytes, ghost t: Tables)
      requires Valid() && WellFormed(t) && Fits(t) && snap == SnapshotBytes(chainId, t)
      modifies state`accounts, state`names
      ensures Valid() && Tables(state.accounts, state.names) == t
    {
      hide SnapshotBytes, Restore, BlockHash, EpochSeed, WellFormed;
      RestoreSnapshot(chainId, t, Tables(state.accounts, state.names));
      var ok := state.Deserialize(snap);
    }

    method PayProposer(proposer: Addr, h: nat, tips: U64)
      requires Valid()
      modifies state
      ensures Valid() && state.Model() == PayLeader(old(state.Model()), proposer, h, tips)
    {
      hide BlockHash, EpochSeed, WellFormed, ToLedger, BlockReward, Ledgers.Credit, Ledgers.Debit;
      var reward := BlockReward(h);
      state.Credit(proposer, (reward + tips) % W64);
      state.Debit(REWARD_POOL, reward);
    }

    /** Hashes the concatenated transaction hashes; zero for an empty block. */
    method TxRootOf(txs: seq<Tx>) returns (root: Hash)
      ensures root == TxRoot(cr, txs)
    {
      hide TxHash;
      if txs == [] {
        return ZERO_HASH;
      }
      var concat: Bytes := [];
      for i := 0 to |txs|
        invariant concat == TxHashes(cr, txs[..i])
      {
        TxHashesSnoc(cr, txs[..i], txs[i]);
        assert txs[..i + 1] == txs[..i] + [txs[i]];
        concat := concat + TxHash(cr, txs[i]);
      }
      assert txs[..|txs|] == txs;
      return cr.hash(concat);
    }

    /** The checks by execution. The state is left as the block makes it; the caller rolls back. */
    method CheckBody(b: Block) returns (v: Verdict)
      requires Valid() && |b.signers| <= COMMITTEE_MAX
      modifies state, this`cachedValid, this`cachedEpoch, this`cachedSeed
      ensures Valid() && v == BodyVerdict(cr, old(Model()), b)
      ensures Model() == old(Model()).(ledger := state.Model())
      ensures v == Ok ==> state.Model() == PostLedger(cr, old(state.Model()), b)
    {
      hide BlockHash, EpochSeed, WellFormed, ToLedger, ExecTxs, PayLeader, CommitOk, TxRoot, StateRoot, TotalWeight;
      ghost var pre := state.Model();
      var preTotal := TotalSqrtStake();
      var stakes := CaptureStakes(b);
      var ok, gas, tips := Execute(b);
      if !ok { return BadTx; }
      if gas != b.header.gasUsed { return BadGas; }
      var root := TxRootOf(b.txs);
      if root != b.header.txRoot { return BadTx; }
      PayProposer(b.header.proposer, b.header.height, tips);
      var stateRoot := state.Root(cr);
      if stateRoot != b.header.stateRoot { return BadStateRoot; }
      var commit := ValidateCommit(b, BlockHash(cr, b.header), preTotal, stakes, pre);
      return if commit then Ok else BadCommit;
    }

    /** Records every listed signer as alive at the block's height. */
    method RecordLive(b: Block)
      requires Valid()
      modifies this`liveN, live
      ensures Valid() && LiveMap() == RecordSigners(old(LiveMap()), b.signers, b.header.height)
    {
      hide BlockHash, EpochSeed, WellFormed, RecordSigner;
      ghost var before := LiveMap();
      var i := 0;
      while i < |b.signers|
        invariant i <= |b.signers| && Valid()
        invariant LiveMap() == RecordSigners(before, b.signers[..i], b.header.height)
      {
        assert b.signers[..i + 1][..i] == b.signers[..i];
        LiveRecordSigner(b.signers[i].signer, b.header.height);
        i := i + 1;
      }
      assert b.signers[..|b.signers|] == b.signers;
    }

    method IndexBlock(b: Block)
      requires Valid()
      modifies index
      ensures Valid() && index.log == old(index.log) + Entries(cr, b)
    {
      hide BlockHash, EpochSeed, WellFormed, TxHash;
      ghost var before := index.log;
      var i := 0;
      while i < |b.txs|
        invariant i <= |b.txs| && Valid() && index.log == before + Entries(cr, b)[..i]
      {
        index.Add(TxEntry(TxHash(cr, b.txs[i]), b.header.height, i));
        i := i + 1;
      }
    }

    /** Stores an accepted block and moves the tip; the cached seed is dropped. */
    method Append(b: Block)
      requires Valid() && b.header.height == height + 1
      modifies this`blocks, this`height, this`tipHash, this`lastSlot, this`baseFee, this`cachedValid
      ensures Valid() && blocks == old(blocks) + [b]
    {
      hide BlockHash, EpochSeed, WellFormed;
      blocks := blocks + [b];
      height := b.header.height;
      tipHash := BlockHash(cr, b.header);
      lastSlot := b.header.slot;
      baseFee := b.header.baseFee;
      cachedValid := false;
    }

    /**
     `ac_chain_accept_block`: the verdict and the new chain are those of the specification; every verdict
     but `Ok` leaves ledger, tip, live map and index as they were.
     */
    method AcceptBlock(b: Block, now: U64) returns (v: Verdict)
      requires Valid() && |b.signers| <= COMMITTEE_MAX && Fits(Tables(state.accounts, state.names))
      modifies this, state, live, index
      ensures Valid() && v == BlockVerdict(cr, old(Model()), b, now)
      ensures Model() == Accept(cr, old(Model()), b, now)
      ensures v != Ok ==> state.accounts == old(state.accounts) && state.names == old(state.names)
    {
      hide HeaderVerdict, BodyVerdict, PostLedger, BlockHash, EpochSeed, WellFormed, ToLedger, RecordSigners,
        SnapshotBytes,
        Fits, Entries;
      v := CheckHeader(b.header, now);
      if v != Ok {
        return;
      }
      ghost var t := Tables(state.accounts, state.names);
      var snap := state.Serialize();
      v := CheckBody(b);
      if v != Ok {
        Rollback(snap, t);
        return;
      }
      NextHeight(cr, old(Model()), b.header, now);
      Append(b);
      RecordLive(b);
      IndexBlock(b);
    }

    // -------------------------------------------------------------------------
    // Construction
    // -------------------------------------------------------------------------

    /** Keeps the candidates that verify, fit and apply. */
    method Choose(candidates: seq<Tx>, slot: U64, fee: U64) returns (kept: seq<Tx>, gas: nat, tips: U64)
      requires Valid()
      modifies state
      ensures Valid()
      ensures A.Select(cr, old(state.Model()), candidates, slot, fee) ==
        A.Selection(kept, Exec(state.Model(), gas, tips))
    {
      hide BlockHash, WellFormed, EpochSeed, ToLedger, Ledgers.ApplyTx, TxVerify, TotalGas;
      ghost var l := state.Model();
      kept, gas, tips := [], 0, 0;
      var i := 0;
      while i < |candidates|
        invariant i <= |candidates| && Valid()
        invariant A.Select(cr, l, candidates[..i], slot, fee) == A.Selection(kept, Exec(state.Model(), gas, tips))
      {
        var tx := candidates[i];
        assert candidates[..i + 1][..i] == candidates[..i];
        if TxVerify(cr, tx) && (gas + TotalGas(tx)) % W64 <= BLOCK_GAS_LIMIT {
          ghost var m := state.Model();
          var r := state.ApplyTx(cr, tx, slot, fee);
          if r.Included? {
            kept, gas, tips := kept + [tx], gas + r.gas, (tips + r.tip) % W64;
          } else {
            RejectedChangesNothing(cr, m, tx, slot, fee);
          }
        }
        i := i + 1;
      }
      assert candidates[..|candidates|] == candidates;
    }

    /** `ac_chain_build_block`: executes on the real state and puts it back. */
    method BuildBlock(slot: U64, kp: KeyPair, candidates: seq<Tx>) returns (b: Option<Block>)
      requires Valid() && |candidates| < W32 && Fits(Tables(state.accounts, state.names))
      modifies state, this`cachedValid, this`cachedEpoch, this`cachedSeed
      ensures Valid() && Model() == old(Model())
      ensures state.accounts == old(state.accounts) && state.names == old(state.names)
      ensures b == A.BuildBlock(cr, Model(), slot, kp, candidates)
    {
      hide BlockHash, EpochSeed, WellFormed, ToLedger, A.Select, PayLeader, TxRoot, StateRoot, SnapshotBytes, Fits,
        ExpectedBaseFee, VrfProve, LeaderAlpha;
      var acc, found := state.Get(kp.pk);
      if !found || acc.stake < MIN_STAKE {
        return None;
      }
      ghost var l, t := state.Model(), Tables(state.accounts, state.names);
      var seed := Seed(Epoch(slot));
      var proof := VrfProve(cr, LeaderAlpha(seed, slot), kp);
      var fee := NextFee();
      var snap := state.Serialize();
      var kept, gas, tips := Choose(candidates, slot, fee);
      A.SelectIsShort(cr, l, candidates, slot, fee);
      PayProposer(kp.pk, height + 1, tips);
      var root := state.Root(cr);
      Rollback(snap, t);
      var txRoot := TxRootOf(kept);
      return Some(Block(
        Header(BLOCK_VERSION, (height + 1) % W64, slot, tipHash, (genesisMs + slot * SLOT_MS) % W64, kp.pk, proof, root,
               txRoot, fee, gas % W64, BLOCK_GAS_LIMIT, |kept|), kept, []));
    }
  }

  /** Adds up the square roots of all sufficient stakes in a 64-bit word. */
  method SumWeights(t: seq<Row<Holdings>>) returns (sum: U64)
    ensures sum == RowSum(t, Weight) % W64
  {
    hide Sqrt, RowSum, Weight;
    sum := 0;
    RowSumOfNone();
    for i := 0 to |t|
      invariant sum == RowSum(t[..i], Weight) % W64
    {
      RowSumStep(t, i);
      WeightIs(t[i].val);
      if t[i].val.stake >= MIN_STAKE {
        var w := IsqrtU64(t[i].val.stake);
        ModAdd(RowSum(t[..i], Weight), w);
        sum := (sum + w) % W64;
      }
    }
    assert t[..|t|] == t;
  }

  /** Seeds the reward pool and the allocations, and marks every staked one as live. */
  method ApplyGenesis(s: Store, lv: array<LiveEntry>, g: Genesis) returns (n: nat)
    requires s.Valid() && s.Model() == Ledger(g.chainId, map[], map[]) && lv.Length == MAX_LIVE
    modifies s`accounts, lv
    ensures s.Valid() && s.Model() == GenesisLedger(g, |g.accounts|)
    ensures n <= MAX_LIVE && lv[..n] == GenesisLive(g, |g.accounts|)
  {
    hide WellFormed, ToLedger, Ledgers.Set;
    s.Set(REWARD_POOL, Holdings(POOL_SEED, 0, 0, 0));
    n := 0;
    for i := 0 to |g.accounts|
      invariant s.Valid() && s.Model() == GenesisLedger(g, i)
      invariant n <= MAX_LIVE && lv[..n] == GenesisLive(g, i)
    {
      var a := g.accounts[i];
      s.Set(a.addr, Holdings(a.balance, 0, a.stake, 0));
      if a.stake >= MIN_STAKE && n < MAX_LIVE {
        lv[n] := LiveEntry(a.addr, 0);
        n := n + 1;
        assert lv[..n] == GenesisLive(g, i) + [LiveEntry(a.addr, 0)];
      }
    }
  }

  // ---------------------------------------------------------------------------
  // Small facts the methods use
  // ---------------------------------------------------------------------------

  lemma PositionIs(live: seq<LiveEntry>, a: Addr, i: nat)
    requires i <= |live| && (forall j :: 0 <= j < i ==> live[j].addr != a) && (i < |live| ==> live[i].addr == a)
    ensures Quorum.Position(live, a) == i
  {
  }

  predicate Listed(ss: seq<Signer>, a: Addr) {
    exists i :: 0 <= i < |ss| && ss[i].signer == a
  }

  lemma NothingScanned(cr: Crypto, blocks: seq<Block>)
    requires blocks != []
    ensures Nonces.ScanIndex(cr, blocks[..1]) == []
  {
  }

  lemma ScanStep(cr: Crypto, blocks: seq<Block>, h: nat)
    requires 1 <= h < |blocks|
    ensures Nonces.ScanIndex(cr, blocks[..h + 1]) == Nonces.ScanIndex(cr, blocks[..h]) + Entries(cr, blocks[h])
  {
    hide Entries;
    assert blocks[..h + 1][..h] == blocks[..h];
  }

  lemma TablesAreSorted(t: Tables)
    requires WellFormed(t)
    ensures Sorted(t.accounts)
  {
  }

  lemma LiveAddrsStep(l: Ledger, live: seq<LiveEntry>, e: LiveEntry, height: nat)
    ensures WeightOf(l, LiveAddrs(live + [e], height)) ==
      WeightOf(l, LiveAddrs(live, height)) + if Within(height, e.last) then Weight(Ledgers.Get(l, e.addr)) else 0
  {
    assert (live + [e])[..|live|] == live;
    ShareAppend(l.accounts, Weight, LiveAddrs(live, height), [e.addr]);
    assert [e.addr][1..] == [];
    assert LiveAddrs(live, height) + [] == LiveAddrs(live, height);
  }

  lemma SignerOkIs(cr: Crypto, pre: Ledger, alpha: Bytes, vote: Bytes, total: nat, s: Signer)
    ensures var stake := Ledgers.Get(pre, s.signer).stake;
      SignerOk(cr, pre, alpha, vote, total, s) ==
        (stake >= MIN_STAKE && VrfVerify(cr, s.proof, alpha, s.signer)
         && cr.eligible(Draw(cr, s.proof), Sqrt(stake), total) && cr.verify(s.sig, vote, s.signer))
  {
  }

  lemma WeightIs(h: Holdings)
    ensures if h.stake >= MIN_STAKE then Weight(h) == Sqrt(h.stake) <= SQRT_MAX else Weight(h) == 0
  {
    SqrtFits(h.stake);
  }

  lemma RowSumOfNone()
    ensures RowSum([], Weight) == 0
  {
  }

  lemma RowSumStep(t: seq<Row<Holdings>>, i: nat)
    requires i < |t|
    ensures RowSum(t[..i + 1], Weight) == RowSum(t[..i], Weight) + Weight(t[i].val)
  {
    assert t[..i + 1][..i] == t[..i];
  }

  lemma NoRows()
    ensures RowSum([], Active) == 0
  {
  }

  lemma ActiveStep(t: seq<Row<Holdings>>, i: nat)
    requires i < |t|
    ensures RowSum(t[..i + 1], Active) == RowSum(t[..i], Active) + Active(t[i].val)
  {
    assert t[..i + 1][..i] == t[..i];
  }

  lemma SignedStep(l: Ledger, s: seq<Bytes>, i: nat)
    requires i < |s|
    ensures WeightOf(l, s[..i + 1]) == WeightOf(l, s[..i]) + Weight(Ledgers.Get(l, s[i]))
  {
    assert s[..i + 1] == s[..i] + [s[i]];
    ShareAppend(l.accounts, Weight, s[..i], [s[i]]);
    var one: seq<Bytes> := [s[i]];
    assert one[1..] == [];
  }

  lemma {:induction false} TxHashesSnoc(cr: Crypto, txs: seq<Tx>, t: Tx)
    ensures TxHashes(cr, txs + [t]) == TxHashes(cr, txs) + TxHash(cr, t)
  {
    hide TxHash;
    if txs == [] {
      assert ([] + [t])[1..] == [];
    } else {
      TxHashesSnoc(cr, txs[1..], t);
      assert (txs + [t])[1..] == txs[1..] + [t];
    }
  }

  /** A failing prefix fails the whole list. */
  lemma {:induction false} ExecStops(cr: Crypto, l: Ledger, txs: seq<Tx>, i: nat, slot: U64, baseFee: U64)
    requires i < |txs| && ExecTxs(cr, l, txs[..i + 1], slot, baseFee).None?
    ensures ExecTxs(cr, l, txs, slot, baseFee).None?
    decreases |txs|
  {
    hide ExecTx;
    if i + 1 < |txs| {
      var init := txs[..|txs| - 1];
      assert init[..i + 1] == txs[..i + 1];
      ExecStops(cr, l, init, i, slot, baseFee);
    } else {
      assert txs[..i + 1] == txs;
    }
  }

  lemma RejectedChangesNothing(cr: Crypto, l: Ledger, tx: Tx, slot: U64, baseFee: U64)
    requires Ledgers.ApplyTx(cr, l, tx, slot, baseFee).1.Rejected?
    ensures Ledgers.ApplyTx(cr, l, tx, slot, baseFee).0 == l
  {
    hide Precheck, Body;
  }

  lemma NextHeight(cr: Crypto, c: Chain, h: Header, now: U64)
    requires c.blocks != [] && HeaderVerdict(cr, c, h, now) == Ok
    ensures h.height == Height(c) + 1
  {
    hide BlockHash, LeaderOk, ExpectedBaseFee;
  }
}
