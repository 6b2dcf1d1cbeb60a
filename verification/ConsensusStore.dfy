/**
 The vote and commit protocol as a stateful object (src/consensus.c): the ring of proposals and the slot
 table are arrays changed in place. Every handler and phase is proved against the step of Voting.dfy.
 */
module ConsensusStore {
  import opened Words
  import opened Types
  import opened Codec
  import opened Isqrt
  import opened Ledgers
  import opened Snapshots
  import opened Quorum
  import opened Chains
  import opened Priority
  import Table
  import C = ChainStore
  import M = Mempool
  import Pool
  import V = Voting
  import A = Agreement

  class Consensus {
    const kp: KeyPair
    const validator: bool
    const chain: C.LiveChain
    const mempool: M.TxPool
    const pending: array<V.Pending>
    const slotVotes: array<V.SlotVote>
    var voteHeight: nat
    var voteBlock: Hash
    var votePriority: Bytes
    var lastReqMs: U64
    var lastReqTarget: U64
    /** Everything broadcast so far. */
    var votes: seq<V.Ballot>
    var blocks: seq<Block>
    var requests: seq<V.HeadersReq>

    ghost predicate Valid()
      reads this, pending, chain, chain.state, chain.index, mempool
    {
      && chain.Valid() && mempool.Valid() && pending.Length == V.RING && slotVotes.Length == V.RING
      && forall i :: 0 <= i < V.RING && pending[i].Held? ==> |pending[i].signers| <= COMMITTEE_MAX
    }

    /** The state of the protocol as a value. */
    ghost function Model(): (n: V.Node)
      reads this, pending, slotVotes, chain, chain.state, chain.index, chain.live, mempool, mempool.entries
      requires Valid()
      ensures V.Sized(n)
    {
      V.Node(kp, validator, chain.Model(), mempool.Contents(), pending[..], slotVotes[..], voteHeight, voteBlock,
             votePriority, lastReqMs, lastReqTarget, votes, blocks, requests)
    }

    /** The snapshot taken before execution can count the rows of both tables. */
    ghost predicate Countable()
      reads chain, chain.state
    {
      Fits(Tables(chain.state.accounts, chain.state.names))
    }

    constructor (key: KeyPair, isValidator: bool, c: C.LiveChain, pool: M.TxPool)
      requires c.Valid() && pool.Valid()
      ensures Valid() && Model() == V.Start(key, isValidator, c.Model()).(pool := pool.Contents())
      ensures chain == c && mempool == pool
      ensures fresh(pending) && fresh(slotVotes)
    {
      kp, validator, chain, mempool := key, isValidator, c, pool;
      pending := new V.Pending[V.RING](_ => V.Free);
      slotVotes := new V.SlotVote[V.RING](_ => V.NO_VOTE);
      voteHeight, voteBlock, votePriority := 0, ZERO_HASH, ZERO8 + ZERO8;
      lastReqMs, lastReqTarget, votes, blocks, requests := 0, 0, [], [], [];
      new;
      assert pending[..] == [V.Free, V.Free, V.Free, V.Free, V.Free, V.Free, V.Free, V.Free];
      assert slotVotes[..] == [V.NO_VOTE, V.NO_VOTE, V.NO_VOTE, V.NO_VOTE, V.NO_VOTE, V.NO_VOTE, V.NO_VOTE, V.NO_VOTE];
    }

    // -------------------------------------------------------------------------
    // The ring and the slot table
    // -------------------------------------------------------------------------

    method Find(hash: Hash) returns (i: nat)
      requires Valid()
      ensures i == V.Find(pending[..], hash)
    {
      i := 0;
      while i < V.RING && !(pending[i].Held? && pending[i].hash == hash)
        invariant i <= V.RING
        invariant forall j :: 0 <= j < i ==> !(pending[j].Held? && pending[j].hash == hash)
      {
        i := i + 1;
      }
      V.FindIs(pending[..], hash, i);
    }

    method Alloc() returns (i: nat)
      requires Valid()
      ensures i == V.Alloc(pending[..]) && i < V.RING
    {
      hide V.FirstFree;
      ghost var ps := pending[..];
      var oldest := 0;
      i := 0;
      while i < V.RING
        invariant i <= V.RING && forall j :: 0 <= j < i ==> ps[j].Held?
        invariant i > 0 ==> oldest == V.Oldest(ps[..i])
        invariant i == 0 ==> oldest == 0
      {
        if pending[i].Free? {
          V.FreeIs(ps, i);
          return i;
        }
        assert i > 0 ==> ps[..i + 1][..i] == ps[..i];
        if i == 0 || pending[i].firstSeen < pending[oldest].firstSeen {
          oldest := i;
        }
        i := i + 1;
      }
      assert ps[..V.RING] == ps;
      V.FreeIs(ps, V.RING);
      return oldest;
    }

    /** `slot_vote_for` */
    method Touch(slot: U64) returns (i: nat)
      requires Valid()
      modifies slotVotes
      ensures (slotVotes[..], i) == V.Touch(old(slotVotes[..]), slot) && i < V.RING
    {
      ghost var vs := slotVotes[..];
      var lowest := 0;
      i := 0;
      while i < V.RING
        modifies {}
        invariant i <= V.RING && forall j :: 0 <= j < i ==> vs[j].slot != slot
        invariant i > 0 ==> lowest == V.LowestSlot(vs[..i])
        invariant i == 0 ==> lowest == 0
      {
        if slotVotes[i].slot == slot {
          V.SlotIs(vs, slot, i);
          return i;
        }
        assert i > 0 ==> vs[..i + 1][..i] == vs[..i];
        if i == 0 || slotVotes[i].slot < slotVotes[lowest].slot {
          lowest := i;
        }
        i := i + 1;
      }
      assert vs[..V.RING] == vs;
      V.SlotIs(vs, slot, V.RING);
      slotVotes[lowest] := V.SlotVote(slot, V.WORST, ZERO_HASH, false);
      return lowest;
    }

    method NoteProposal(slot: U64, priority: Bytes)
      requires Valid()
      modifies slotVotes
      ensures slotVotes[..] == V.NoteProposal(old(slotVotes[..]), slot, priority)
    {
      hide V.Touch;
      var i := Touch(slot);
      if Less(priority, slotVotes[i].best) {
        slotVotes[i] := slotVotes[i].(best := priority);
      }
    }

    method NoteVote(slot: U64, hash: Hash, priority: Bytes)
      requires Valid()
      modifies slotVotes
      ensures slotVotes[..] == V.NoteVote(old(slotVotes[..]), slot, hash, priority)
    {
      hide V.Touch;
      var i := Touch(slot);
      slotVotes[i] := V.SlotVote(slot, priority, hash, true);
    }

    static method Listed(ss: seq<Signer>, a: Addr) returns (yes: bool)
      ensures yes == V.Lists(ss, a)
    {
      for i := 0 to |ss|
        invariant forall j :: 0 <= j < i ==> ss[j].signer != a
      {
        if ss[i].signer == a {
          return true;
        }
      }
      return false;
    }

    static method Merge(ss: seq<Signer>, ts: seq<Signer>) returns (r: seq<Signer>)
      requires |ss| <= COMMITTEE_MAX
      ensures r == V.Merge(ss, ts) && |r| <= COMMITTEE_MAX
    {
      hide V.Lists;
      r := ss;
      var i := 0;
      while i < |ts|
        invariant i <= |ts| && r == V.Merge(ss, ts[..i]) && |r| <= COMMITTEE_MAX
      {
        assert ts[..i + 1][..i] == ts[..i];
        var seen := Listed(r, ts[i].signer);
        if !seen && |r| < COMMITTEE_MAX {
          r := r + [ts[i]];
        }
        i := i + 1;
      }
      assert ts[..|ts|] == ts;
    }

    // -------------------------------------------------------------------------
    // Weights
    // -------------------------------------------------------------------------

    /** The committee proof of this node for `slot`. */
    method CommitteeProof(slot: U64) returns (proof: Option<Sig>)
      requires Valid()
      modifies chain`cachedValid, chain`cachedEpoch, chain`cachedSeed
      ensures Valid() && Model() == old(Model()) && proof == V.CommitteeProof(chain.cr, Model(), slot)
    {
      hide WellFormed, ToLedger, BlockHash, EpochSeed, TotalWeight, Sqrt, CommitteeAlpha, VrfProve;
      var me, known := chain.state.Get(kp.pk);
      var seed := chain.Seed(Epoch(slot));
      var total := chain.TotalSqrtStake();
      if !known || me.stake < MIN_STAKE {
        return None;
      }
      var weight := IsqrtU64(me.stake);
      var p := VrfProve(chain.cr, CommitteeAlpha(seed, slot), kp);
      return if chain.cr.eligible(Draw(chain.cr, p), weight, total) then Some(p) else None;
    }

    method SignedWeight(ss: seq<Signer>) returns (sum: nat)
      requires Valid()
      ensures sum == WeightOf(chain.state.Model(), SignerAddrs(ss))
    {
      hide WellFormed, ToLedger, BlockHash, EpochSeed, Sqrt;
      ghost var l := chain.state.Model();
      sum := 0;
      var i := 0;
      while i < |ss|
        invariant i <= |ss| && sum == WeightOf(l, SignerAddrs(ss)[..i])
      {
        C.SignedStep(l, SignerAddrs(ss), i);
        var acc, _ := chain.state.Get(ss[i].signer);
        if acc.stake >= MIN_STAKE {
          var w := IsqrtU64(acc.stake);
          sum := sum + w;
        }
        i := i + 1;
      }
      assert SignerAddrs(ss)[..i] == SignerAddrs(ss);
    }

    /** The two weight gates. */
    method ThresholdMet(ss: seq<Signer>) returns (met: bool)
      requires Valid()
      ensures met == V.ThresholdMet(chain.Model(), ss)
    {
      hide WellFormed, ToLedger, BlockHash, EpochSeed, TotalWeight, LiveWeight, WeightOf;
      var live := chain.LiveSqrtStake();
      var total := chain.TotalSqrtStake();
      if live == 0 {
        live := total;
      }
      if live == 0 {
        return false;
      }
      var sum := SignedWeight(ss);
      if sum * 3 < (live * 2) % W64 {
        return false;
      }
      if total > 0 && sum * 2 <= total {
        return false;
      }
      return true;
    }

    // -------------------------------------------------------------------------
    // Committing
    // -------------------------------------------------------------------------

    /** Drops the transactions of a committed block from the pool. */
    method Purge(txs: seq<Tx>)
      requires Valid()
      modifies mempool`n, mempool.entries
      ensures Valid() && Model() == old(Model()).(pool := V.Purge(chain.cr, old(Model()).pool, txs))
    {
      hide C.LiveChain.Valid, C.LiveChain.Model, Pool.Remove, TxHash;
      ghost var pool := mempool.Contents();
      var i := 0;
      while i < |txs|
        invariant i <= |txs| && Valid() && mempool.Contents() == V.Purge(chain.cr, pool, txs[..i])
        invariant Model() == old(Model()).(pool := mempool.Contents())
      {
        assert txs[..i + 1][..i] == txs[..i];
        mempool.Remove(TxHash(chain.cr, txs[i]));
        i := i + 1;
      }
      assert txs[..|txs|] == txs;
    }

    /** Offers the entry with its signers to the chain. */
    method Seal(i: nat, p: V.Pending, now: U64)
      requires Valid() && Countable() && i < V.RING && p == pending[i] && p.Held?
      modifies this`blocks, pending, chain, chain.state, chain.live, chain.index, mempool`n, mempool.entries
      ensures Valid()
      ensures var n := old(Model()); var b := p.block.(signers := p.signers);
        var v := BlockVerdict(chain.cr, n.chain, b, now);
        Model() ==
          if v != Ok && v != Dup then n
          else n.(pending := n.pending[i := p.(committed := true)], chain := Accept(chain.cr, n.chain, b, now),
                  pool := V.Purge(chain.cr, n.pool, b.txs), blocks := n.blocks + [b])
    {
      hide C.LiveChain.Valid, C.LiveChain.Model, BlockVerdict, Accept, Fits, V.Purge;
      var b := p.block.(signers := p.signers);
      var v := chain.AcceptBlock(b, now);
      if v == Ok || v == Dup {
        pending[i] := p.(committed := true);
        Purge(b.txs);
        blocks := blocks + [b];
      } else {
        RejectedLeavesChain(chain.cr, old(chain.Model()), b, now);
      }
    }

    method TryCommit(i: nat, force: bool, now: U64)
      requires Valid() && Countable() && i < V.RING
      modifies this`blocks, pending, chain, chain.state, chain.live, chain.index, mempool`n, mempool.entries
      ensures Valid() && Model() == V.TryCommit(chain.cr, old(Model()), i, force, now)
    {
      hide C.LiveChain.Valid, C.LiveChain.Model, BlockVerdict, V.ThresholdMet, V.InGrace, Accept, Fits, V.Purge;
      var p := pending[i];
      if p.Free? || p.committed {
        return;
      }
      var met := ThresholdMet(p.signers);
      if !met {
        return;
      }
      var q := p.(reached := if p.reached == 0 then now else p.reached);
      pending[i] := q;
      ghost var m := Model();
      assert m.pending == old(pending[..])[i := q];
      if !force && V.InGrace(chain.genesisMs, p.block.header.slot, q.reached, now) {
        return;
      }
      Seal(i, q, now);
    }

    /** Puts a new proposal into the ring and notes it for its slot. */
    method Stash(b: Block, now: U64) returns (i: nat)
      requires Valid() && |b.signers| <= COMMITTEE_MAX
      modifies pending, slotVotes
      ensures Valid() && i < V.RING && (Model(), i) == V.Stash(chain.cr, old(Model()), b, now)
    {
      hide WellFormed, ToLedger, BlockHash, EpochSeed, V.Alloc, V.NoteProposal, ComputePriority, Sqrt;
      i := Alloc();
      var acc, _ := chain.state.Get(b.header.proposer);
      var root := IsqrtU64(acc.stake);
      var priority := ComputePriority(chain.cr, VrfOut(chain.cr, b.header.vrfProof), root);
      pending[i] := V.Held(false, b.(signers := []), BlockHash(chain.cr, b.header), priority, b.signers, now, 0);
      NoteProposal(b.header.slot, priority);
    }

    // -------------------------------------------------------------------------
    // Messages
    // -------------------------------------------------------------------------

    /** Asks for the missing headers, unless it did so recently for about the same height. */
    method RequestGap(target: U64, now: U64)
      requires Valid() && target > chain.height + 1
      modifies this`lastReqMs, this`lastReqTarget, this`requests
      ensures Valid() && Model() == V.RequestGap(old(Model()), target, now)
    {
      hide WellFormed, ToLedger, BlockHash, EpochSeed;
      var stale := (now - lastReqMs) % W64 >= V.REQUEST_INTERVAL_MS;
      var grew := target > (lastReqTarget + 64) % W64;
      if stale || grew {
        lastReqMs, lastReqTarget := now, target;
        var count := (target - chain.height) % W32;
        if count > 256 {
          count := 256;
        }
        requests := requests + [V.HeadersReq(chain.height + 1, count)];
      }
    }

    /** A proposal for the next height on this tip whose leader proof verifies. */
    method IsWelcome(h: Header) returns (yes: bool)
      requires Valid()
      modifies chain`cachedValid, chain`cachedEpoch, chain`cachedSeed
      ensures Valid() && Model() == old(Model()) && yes == V.Welcome(chain.cr, chain.Model(), h)
    {
      hide WellFormed, ToLedger, BlockHash, EpochSeed, VrfVerify, LeaderAlpha;
      if h.height != chain.height + 1 || h.parentHash != chain.tipHash {
        return false;
      }
      var seed := chain.Seed(Epoch(h.slot));
      return VrfVerify(chain.cr, h.vrfProof, LeaderAlpha(seed, h.slot), h.proposer);
    }

    method HandleBlock(b: Block, now: U64)
      requires Valid() && Countable() && |b.signers| <= COMMITTEE_MAX
      modifies this, pending, slotVotes, chain, chain.state, chain.live, chain.index, mempool`n, mempool.entries
      ensures Valid() && Model() == V.HandleBlock(chain.cr, old(Model()), b, now)
    {
      hide C.LiveChain.Valid, C.LiveChain.Model, BlockHash, V.TryCommit, V.Find, V.Merge, V.Stash, V.Welcome,
        V.RequestGap, Fits;
      if b.header.version != BLOCK_VERSION {
        return;
      }
      var i := Find(BlockHash(chain.cr, b.header));
      if i < V.RING {
        var p := pending[i];
        var merged := Merge(p.signers, b.signers);
        pending[i] := p.(signers := merged);
        assert pending[..] == old(pending[..])[i := p.(signers := merged)];
        TryCommit(i, false, now);
        return;
      }
      if b.header.height > chain.height + 1 {
        RequestGap(b.header.height, now);
        return;
      }
      var welcome := IsWelcome(b.header);
      if welcome {
        i := Stash(b, now);
        TryCommit(i, false, now);
      }
    }

    /** The checks on a vote for the proposal in entry `i`; the signature was checked before. */
    method VoterOk(i: nat, height: U64, s: Signer) returns (ok: bool)
      requires Valid() && i < V.RING && pending[i].Held?
      requires chain.cr.verify(s.sig, VoteMessage(height, pending[i].hash), s.signer)
      modifies chain`cachedValid, chain`cachedEpoch, chain`cachedSeed
      ensures Valid() && Model() == old(Model()) && ok == V.VoteOk(chain.cr, chain.Model(), pending[i], height, s)
    {
      hide WellFormed, ToLedger, BlockHash, EpochSeed, VrfVerify, CommitteeAlpha, TotalWeight, VoteMessage, Sqrt;
      var slot := pending[i].block.header.slot;
      var seed := chain.Seed(Epoch(slot));
      var total := chain.TotalSqrtStake();
      var acc, _ := chain.state.Get(s.signer);
      if acc.stake < MIN_STAKE || !VrfVerify(chain.cr, s.proof, CommitteeAlpha(seed, slot), s.signer) {
        return false;
      }
      var root := IsqrtU64(acc.stake);
      return chain.cr.eligible(Draw(chain.cr, s.proof), root, total);
    }

    method HandleVote(height: U64, hash: Hash, s: Signer, now: U64)
      requires Valid() && Countable()
      modifies this`blocks, pending, chain, chain.state, chain.live, chain.index, mempool`n, mempool.entries
      ensures Valid() && Model() == V.HandleVote(chain.cr, old(Model()), height, hash, s, now)
    {
      hide C.LiveChain.Valid, C.LiveChain.Model, V.TryCommit, V.Find, V.Lists, Fits, VoteMessage, V.VoteOk;
      var i := Find(hash);
      if i == V.RING {
        return;
      }
      if !chain.cr.verify(s.sig, VoteMessage(height, hash), s.signer) {
        UnsignedVoteFails(chain.cr, chain.Model(), pending[i], height, s);
        return;
      }
      var p := pending[i];
      var ok := VoterOk(i, height, s);
      var seen := Listed(p.signers, s.signer);
      if !ok || seen {
        return;
      }
      if |p.signers| < COMMITTEE_MAX {
        pending[i] := p.(signers := p.signers + [s]);
      }
      assert pending[..] == old(pending[..])[i := p.(signers := V.AddSigner(p.signers, s))];
      TryCommit(i, false, now);
    }

    // -------------------------------------------------------------------------
    // Phases
    // -------------------------------------------------------------------------

    /** `our_vote_now` on the entry `i`. */
    method CastVote(i: nat, lock: Bytes)
      requires Valid() && i < V.RING && pending[i].Held?
      modifies this`votes, pending, slotVotes, chain`cachedValid, chain`cachedEpoch, chain`cachedSeed
      ensures Valid() && Model() == V.CastVote(chain.cr, old(Model()), i, lock)
    {
      hide WellFormed, ToLedger, BlockHash, EpochSeed, V.CommitteeProof, V.NoteVote, V.Lists, VoteMessage;
      var p := pending[i];
      var proof := CommitteeProof(p.block.header.slot);
      if proof.None? {
        return;
      }
      var s := V.OurEntry(chain.cr, kp, p, proof.value);
      var already := Listed(p.signers, kp.pk);
      if !already && |p.signers| < COMMITTEE_MAX {
        pending[i] := p.(signers := p.signers + [s]);
      }
      assert pending[..] == old(pending[..])[i := p.(signers := V.AddSigner(p.signers, s))];
      NoteVote(p.block.header.slot, p.hash, p.priority);
      votes := votes + [V.Ballot(p.block.header.height, p.hash, s, lock)];
    }

    /** The first undecided proposal of lowest priority at height `h`. */
    method Best(h: nat) returns (best: nat)
      requires Valid()
      ensures best == V.Lowest(pending[..], h)
    {
      ghost var ps := pending[..];
      best := 0;
      var i := 0;
      while i < V.RING
        invariant i <= V.RING && best == V.Lowest(ps[..i], h)
      {
        assert ps[..i + 1][..i] == ps[..i];
        if !V.Candidate(pending[i], h) {
          best := if best == i then i + 1 else best;
        } else if best == i || Less(pending[i].priority, pending[best].priority) {
          best := i;
        }
        i := i + 1;
      }
      assert ps[..V.RING] == ps;
    }

    method FindBacked(h: nat, hash: Hash) returns (i: nat)
      requires Valid()
      ensures i == V.Backed(pending[..], h, hash)
    {
      i := 0;
      while i < V.RING && !(V.Candidate(pending[i], h) && pending[i].hash == hash)
        invariant i <= V.RING
        invariant forall j :: 0 <= j < i ==> !(V.Candidate(pending[j], h) && pending[j].hash == hash)
      {
        i := i + 1;
      }
      V.BackedIs(pending[..], h, hash, i);
    }

    method VotePhase(slot: U64, now: U64)
      requires Valid() && Countable()
      modifies this, pending, slotVotes, chain, chain.state, chain.live, chain.index, mempool`n, mempool.entries
      ensures Valid() && Model() == V.VotePhase(chain.cr, old(Model()), slot, now)
    {
      hide C.LiveChain.Valid, C.LiveChain.Model, V.TryCommit, V.CastVote, V.Touch, V.Lowest, V.Backed, Fits;
      if !validator {
        return;
      }
      var sv := Touch(slot);
      if slotVotes[sv].voted {
        return;
      }
      var h := chain.height + 1;
      var best := Best(h);
      if best == V.RING {
        return;
      }
      var p := pending[best];
      if voteHeight == h && !Less(p.priority, votePriority) {
        Reaffirm(h, now);
      } else {
        MoveVote(h, best, now);
      }
    }

    /** Casts the vote already held once more, when its block is still in the ring. */
    method Reaffirm(h: nat, now: U64)
      requires Valid() && Countable()
      modifies this`votes, this`blocks, pending, slotVotes, chain, chain.state, chain.live, chain.index, mempool`n,
        mempool.entries
      ensures Valid()
      ensures var n := old(Model()); var i := V.Backed(n.pending, h, n.voteBlock);
        Model() == if i == V.RING then n
                   else V.TryCommit(chain.cr, V.CastVote(chain.cr, n, i, n.votePriority), i, false, now)
    {
      hide C.LiveChain.Valid, C.LiveChain.Model, V.TryCommit, V.CastVote, V.Backed, Fits;
      var i := FindBacked(h, voteBlock);
      if i < V.RING {
        CastVote(i, votePriority);
        TryCommit(i, false, now);
      }
    }

    /** Votes for the entry `best` and locks on it. */
    method MoveVote(h: nat, best: nat, now: U64)
      requires Valid() && Countable() && best < V.RING && pending[best].Held?
      modifies this, pending, slotVotes, chain, chain.state, chain.live, chain.index, mempool`n, mempool.entries
      ensures Valid()
      ensures var n := old(Model()); var p := n.pending[best];
        Model() == V.TryCommit(chain.cr,
          V.CastVote(chain.cr, n, best, p.priority).(voteHeight := h, voteBlock := p.hash, votePriority := p.priority),
          best, false, now)
    {
      hide C.LiveChain.Valid, C.LiveChain.Model, V.TryCommit, V.CastVote, Fits;
      var p := pending[best];
      CastVote(best, p.priority);
      voteHeight, voteBlock, votePriority := h, p.hash, p.priority;
      TryCommit(best, false, now);
    }

    lemma CountsAgree()
      requires Valid()
      ensures Countable() <==> FewRows(chain.state.Model())
    {
      hide BlockHash, EpochSeed, NameValid, Less;
      Table.ToMapSize(chain.state.accounts);
      Table.ToMapSize(chain.state.names);
    }

    /** `seal_phase`, with the ledger small enough for a snapshot at every entry. */
    method SealPhase(slot: U64, now: U64)
      requires Valid()
      requires forall k :: 0 <= k < V.RING ==> FewRows(V.SealUpTo(chain.cr, Model(), slot, k, now).chain.ledger)
      modifies this`blocks, pending, chain, chain.state, chain.live, chain.index, mempool`n, mempool.entries
      ensures Valid() && Model() == V.SealUpTo(chain.cr, old(Model()), slot, V.RING, now)
    {
      hide C.LiveChain.Valid, C.LiveChain.Model, V.TryCommit, FewRows;
      ghost var n := Model();
      var i := 0;
      while i < V.RING
        invariant i <= V.RING && Valid() && Model() == V.SealUpTo(chain.cr, n, slot, i, now)
      {
        assert FewRows(V.SealUpTo(chain.cr, n, slot, i, now).chain.ledger);
        CountsAgree();
        var p := pending[i];
        if p.Held? && p.block.header.slot == slot && !p.committed {
          TryCommit(i, true, now);
        }
        i := i + 1;
      }
    }

    /** `am_i_leader` */
    method Leads(slot: U64) returns (yes: bool)
      requires Valid()
      modifies chain`cachedValid, chain`cachedEpoch, chain`cachedSeed
      ensures Valid() && Model() == old(Model()) && yes == V.Leads(chain.cr, Model(), slot)
    {
      hide WellFormed, ToLedger, BlockHash, EpochSeed, ActiveCount, LeaderAlpha, VrfProve;
      var me, known := chain.state.Get(kp.pk);
      if !known || me.stake < MIN_STAKE {
        return false;
      }
      var seed := chain.Seed(Epoch(slot));
      var proof := VrfProve(chain.cr, LeaderAlpha(seed, slot), kp);
      var active := chain.CountActive();
      return active != 0 && chain.cr.leads(Draw(chain.cr, proof), active);
    }

    /** `slot_routine` */
    method Propose(slot: U64, now: U64)
      requires Valid() && Countable()
      modifies this, pending, slotVotes, chain, chain.state, chain.live, chain.index, mempool`n, mempool.entries
      ensures Valid() && Model() == V.Propose(chain.cr, old(Model()), slot, now)
    {
      hide C.LiveChain.Valid, C.LiveChain.Model, V.TryCommit, V.Stash, A.BuildBlock, V.Leads, Pool.Unexpired, Fits;
      if !validator {
        return;
      }
      var leads := Leads(slot);
      if !leads {
        return;
      }
      var candidates := mempool.Snapshot(V.SNAPSHOT_MAX);
      assert candidates == V.Candidates(old(Model()).pool);
      var dropped := mempool.PruneExpired(slot);
      var b := chain.BuildBlock(slot, kp, candidates);
      if b.None? {
        return;
      }
      BuiltUnsigned(chain.cr, chain.Model(), slot, kp, candidates);
      var i := Stash(b.value, now);
      blocks := blocks + [b.value];
      TryCommit(i, false, now);
    }
  }

  predicate FewRows(l: Ledger) {
    |l.accounts| < W32 && |l.names| < W32
  }

  lemma UnsignedVoteFails(cr: Crypto, c: Chain, p: V.Pending, height: U64, s: Signer)
    requires c.blocks != [] && p.Held? && !cr.verify(s.sig, VoteMessage(height, p.hash), s.signer)
    ensures !V.VoteOk(cr, c, p, height, s)
  {
  }

  lemma RejectedLeavesChain(cr: Crypto, c: Chain, b: Block, now: U64)
    requires c.blocks != []
    ensures BlockVerdict(cr, c, b, now) != Ok ==> Accept(cr, c, b, now) == c
  {
    hide BlockVerdict, Extend;
  }

  lemma BuiltUnsigned(cr: Crypto, c: Chain, slot: U64, kp: KeyPair, candidates: seq<Tx>)
    requires c.blocks != [] && |candidates| < W32
    ensures var b := A.BuildBlock(cr, c, slot, kp, candidates); b.Some? ==> b.value.signers == []
  {
    hide A.Select, StateRoot, TxRoot, PayLeader, SeedFor, BlockHash, ExpectedBaseFee, SlotTime, VrfProve;
  }
}
