/**
 One node of the vote and commit protocol as a state machine (src/consensus.c).

 Each handler and each timer phase is a step on a `Node` value. A step reads the wall clock once,
 as its `now` argument.
 */
module Voting {
  import opened Words
  import opened Types
  import opened Codec
  import opened Isqrt
  import opened Ledgers
  import opened Quorum
  import opened Chains
  import opened Agreement
  import opened Priority
  import Pool

  const RING := 8
  const SEAL_GRACE_MS := 300
  const REQUEST_INTERVAL_MS := 4000
  const SNAPSHOT_MAX := 256
  const WORST: Bytes := [255, 255, 255, 255, 255, 255, 255, 255, 255, 255, 255, 255, 255, 255, 255, 255]

  /** An entry of the ring of proposals; `reached` is 0 until the threshold was first met. */
  datatype Pending =
    | Free
    | Held(committed: bool, block: Block, hash: Hash, priority: Bytes, signers: seq<Signer>, firstSeen: U64,
      reached: U64)

  datatype SlotVote = SlotVote(slot: U64, best: Bytes, block: Hash, voted: bool)

  /** A commit vote put on the wire, with the priority of the lock it was cast under. */
  datatype Ballot = Ballot(height: U64, block: Hash, entry: Signer, priority: Bytes)

  /** A request for `count` headers from height `from` on. */
  datatype HeadersReq = HeadersReq(from: nat, count: nat)

  /** `votes`, `blocks` and `requests` list everything the node has broadcast. */
  datatype Node = Node(
    kp: KeyPair, validator: bool, chain: Chain, pool: seq<Pool.Entry>, pending: seq<Pending>, slotVotes: seq<SlotVote>,
    voteHeight: nat, voteBlock: Hash, votePriority: Bytes, lastReqMs: U64, lastReqTarget: U64,
    votes: seq<Ballot>, blocks: seq<Block>, requests: seq<HeadersReq>)

  predicate Sized(n: Node) {
    n.chain.blocks != [] && |n.pending| == RING && |n.slotVotes| == RING
  }

  // ---------------------------------------------------------------------------
  // The ring and the slot table
  // ---------------------------------------------------------------------------

  /** A proposal still to be decided at height `h`. */
  predicate Candidate(p: Pending, h: nat) {
    p.Held? && !p.committed && p.block.header.height == h
  }

  /** `pending_find`: the first entry with this hash, or the length. */
  function Find(ps: seq<Pending>, h: Hash): (i: nat)
    ensures i <= |ps|
    ensures i < |ps| ==> ps[i].Held? && ps[i].hash == h
    ensures forall j :: 0 <= j < i ==> !(ps[j].Held? && ps[j].hash == h)
  {
    if ps == [] || (ps[0].Held? && ps[0].hash == h) then 0 else 1 + Find(ps[1..], h)
  }

  function FirstFree(ps: seq<Pending>): (i: nat)
    ensures i <= |ps|
    ensures i < |ps| ==> ps[i].Free?
    ensures forall j :: 0 <= j < i ==> ps[j].Held?
  {
    if ps == [] || ps[0].Free? then 0 else 1 + FirstFree(ps[1..])
  }

  /** The first of the entries seen earliest. */
  function Oldest(ps: seq<Pending>): (i: nat)
    requires ps != [] && forall j :: 0 <= j < |ps| ==> ps[j].Held?
    ensures i < |ps|
  {
    if |ps| == 1 then 0
    else
      var i, last := Oldest(ps[..|ps| - 1]), |ps| - 1;
      if ps[last].firstSeen < ps[i].firstSeen then last else i
  }

  /** `pending_alloc`: a free entry, or the oldest one. */
  function Alloc(ps: seq<Pending>): (i: nat)
    requires ps != []
    ensures i < |ps|
  {
    if FirstFree(ps) < |ps| then FirstFree(ps) else Oldest(ps)
  }

  function SlotAt(vs: seq<SlotVote>, slot: U64): (i: nat)
    ensures i <= |vs|
    ensures i < |vs| ==> vs[i].slot == slot
    ensures forall j :: 0 <= j < i ==> vs[j].slot != slot
  {
    if vs == [] || vs[0].slot == slot then 0 else 1 + SlotAt(vs[1..], slot)
  }

  /** The first of the entries for the lowest slot. */
  function LowestSlot(vs: seq<SlotVote>): (i: nat)
    requires vs != []
    ensures i < |vs|
  {
    if |vs| == 1 then 0
    else
      var i, last := LowestSlot(vs[..|vs| - 1]), |vs| - 1;
      if vs[last].slot < vs[i].slot then last else i
  }

  /** `slot_vote_for`: the table with an entry for `slot`, and where it is. */
  function Touch(vs: seq<SlotVote>, slot: U64): (r: (seq<SlotVote>, nat))
    requires vs != []
    ensures |r.0| == |vs| && r.1 < |vs| && r.0[r.1].slot == slot
  {
    var i := SlotAt(vs, slot);
    if i < |vs| then (vs, i)
    else
      var j := LowestSlot(vs);
      (vs[j := SlotVote(slot, WORST, ZERO_HASH, false)], j)
  }

  predicate Open(vs: seq<SlotVote>, slot: U64)
    requires vs != []
  {
    var (ws, i) := Touch(vs, slot);
    !ws[i].voted
  }

  /** A proposal of this priority was seen for `slot`. */
  function NoteProposal(vs: seq<SlotVote>, slot: U64, priority: Bytes): (r: seq<SlotVote>)
    requires vs != []
    ensures |r| == |vs|
  {
    var (ws, i) := Touch(vs, slot);
    if Less(priority, ws[i].best) then ws[i := ws[i].(best := priority)] else ws
  }

  /** We voted for `hash`, a proposal for `slot`. */
  function NoteVote(vs: seq<SlotVote>, slot: U64, hash: Hash, priority: Bytes): (r: seq<SlotVote>)
    requires vs != []
    ensures |r| == |vs|
  {
    var (ws, i) := Touch(vs, slot);
    ws[i := SlotVote(slot, priority, hash, true)]
  }

  predicate Lists(ss: seq<Signer>, a: Addr) {
    exists i :: 0 <= i < |ss| && ss[i].signer == a
  }

  /** Appends unless the signer is listed or the list is full. */
  function AddSigner(ss: seq<Signer>, s: Signer): seq<Signer> {
    if Lists(ss, s.signer) || |ss| >= COMMITTEE_MAX then ss else ss + [s]
  }

  function Merge(ss: seq<Signer>, ts: seq<Signer>): seq<Signer> {
    if ts == [] then ss else AddSigner(Merge(ss, ts[..|ts| - 1]), ts[|ts| - 1])
  }

  // ---------------------------------------------------------------------------
  // Priorities and committee membership
  // ---------------------------------------------------------------------------

  function PriorityOf(cr: Crypto, l: Ledger, h: Header): (p: Bytes)
    ensures |p| == 16
  {
    SqrtIsWord(Get(l, h.proposer).stake);
    ComputePriority(cr, VrfOut(cr, h.vrfProof), Sqrt(Get(l, h.proposer).stake))
  }

  lemma SqrtIsWord(x: U64)
    ensures Sqrt(x) < W64
  {
    SqrtFits(x);
  }

  /** `am_i_committee`: the membership proof, when this node is drawn for `slot`. */
  ghost function CommitteeProof(cr: Crypto, n: Node, slot: U64): Option<Sig>
    requires Sized(n)
  {
    var stake := Get(n.chain.ledger, n.kp.pk).stake;
    var proof := VrfProve(cr, CommitteeAlpha(SeedFor(cr, n.chain, slot), slot), n.kp);
    if stake >= MIN_STAKE && cr.eligible(Draw(cr, proof), Sqrt(stake), TotalWeight(n.chain.ledger) % W64)
    then Some(proof) else None
  }

  // ---------------------------------------------------------------------------
  // Committing
  // ---------------------------------------------------------------------------

  /** The two weight gates of `try_commit_inner`, all taken from the current state. */
  ghost predicate ThresholdMet(c: Chain, ss: seq<Signer>)
    requires c.blocks != []
  {
    var live, total := LiveWeight(c.ledger, c.live, Height(c)), TotalWeight(c.ledger) % W64;
    var denominator := if live == 0 then total else live;
    var signed := WeightOf(c.ledger, SignerAddrs(ss));
    denominator != 0 && signed * 3 >= (denominator * 2) % W64 && !(total > 0 && signed * 2 <= total)
  }

  function CurrentSlot(genesisMs: U64, now: U64): nat {
    if now < genesisMs then 0 else (now - genesisMs) / SLOT_MS
  }

  /** The block is not yet to be sealed: late votes may still arrive. */
  predicate InGrace(genesisMs: U64, slot: U64, reached: U64, now: U64) {
    CurrentSlot(genesisMs, now) <= (slot + 1) % W64 && (now - reached) % W64 < SEAL_GRACE_MS
  }

  /** Drops the transactions of a committed block from the pool. */
  function Purge(cr: Crypto, pool: seq<Pool.Entry>, txs: seq<Tx>): seq<Pool.Entry> {
    if txs == [] then pool
    else Pool.Remove(Purge(cr, pool, txs[..|txs| - 1]), TxHash(cr, txs[|txs| - 1]))
  }

  /** `try_commit_inner` on the entry `i` of the ring. */
  ghost function TryCommit(cr: Crypto, n: Node, i: nat, force: bool, now: U64): (r: Node)
    requires Sized(n) && i < RING
    ensures Sized(r)
  {
    var p := n.pending[i];
    if p.Free? || p.committed || !ThresholdMet(n.chain, p.signers) then n
    else
      var reached := if p.reached == 0 then now else p.reached;
      var m := n.(pending := n.pending[i := p.(reached := reached)]);
      if !force && InGrace(n.chain.genesisMs, p.block.header.slot, reached, now) then m
      else
        var b := p.block.(signers := p.signers);
        var v := BlockVerdict(cr, n.chain, b, now);
        if v != Ok && v != Dup then m
        else m.(pending := n.pending[i := p.(reached := reached, committed := true)],
                chain := Accept(cr, n.chain, b, now), pool := Purge(cr, n.pool, b.txs), blocks := n.blocks + [b])
  }

  // ---------------------------------------------------------------------------
  // Messages
  // ---------------------------------------------------------------------------

  /** A new proposal goes into the ring and is noted for its slot. */
  function Stash(cr: Crypto, n: Node, b: Block, now: U64): (r: (Node, nat))
    requires Sized(n)
    ensures Sized(r.0) && r.1 < RING
  {
    var i := Alloc(n.pending);
    var priority := PriorityOf(cr, n.chain.ledger, b.header);
    var p := Held(false, b.(signers := []), BlockHash(cr, b.header), priority, b.signers, now, 0);
    (n.(pending := n.pending[i := p], slotVotes := NoteProposal(n.slotVotes, b.header.slot, priority)), i)
  }

  /** A proposal for the next height on this tip whose leader proof verifies. */
  predicate Welcome(cr: Crypto, c: Chain, h: Header)
    requires c.blocks != []
  {
    && h.height == Height(c) + 1 && h.parentHash == BlockHash(cr, Tip(c))
    && VrfVerify(cr, h.vrfProof, LeaderAlpha(SeedFor(cr, c, h.slot), h.slot), h.proposer)
  }

  /** A block from beyond the next height: ask for the gap, but not too often (src/consensus.c:511-536). */
  function RequestGap(n: Node, target: U64, now: U64): (r: Node)
    requires Sized(n) && target > Height(n.chain) + 1
    ensures Sized(r)
  {
    var stale := (now - n.lastReqMs) % W64 >= REQUEST_INTERVAL_MS;
    var grew := target > (n.lastReqTarget + 64) % W64;
    if !stale && !grew then n
    else
      var count := (target - Height(n.chain)) % W32;
      n.(lastReqMs := now, lastReqTarget := target,
         requests := n.requests + [HeadersReq(Height(n.chain) + 1, if count > 256 then 256 else count)])
  }

  /** `ac_consensus_handle_block` */
  ghost function HandleBlock(cr: Crypto, n: Node, b: Block, now: U64): (r: Node)
    requires Sized(n)
    ensures Sized(r)
  {
    var i := Find(n.pending, BlockHash(cr, b.header));
    if b.header.version != BLOCK_VERSION then n
    else if i < RING then
      var p := n.pending[i];
      TryCommit(cr, n.(pending := n.pending[i := p.(signers := Merge(p.signers, b.signers))]), i, false, now)
    else if b.header.height > Height(n.chain) + 1 then RequestGap(n, b.header.height, now)
    else if !Welcome(cr, n.chain, b.header) then n
    else
      var (m, j) := Stash(cr, n, b, now);
      TryCommit(cr, m, j, false, now)
  }

  /** The checks on a vote for the proposal `p`. The height is the one in the vote. */
  ghost predicate VoteOk(cr: Crypto, c: Chain, p: Pending, height: U64, s: Signer)
    requires c.blocks != [] && p.Held?
  {
    var stake := Get(c.ledger, s.signer).stake;
    && cr.verify(s.sig, VoteMessage(height, p.hash), s.signer)
    && stake >= MIN_STAKE
    && VrfVerify(cr, s.proof, CommitteeAlpha(SeedFor(cr, c, p.block.header.slot), p.block.header.slot), s.signer)
    && cr.eligible(Draw(cr, s.proof), Sqrt(stake), TotalWeight(c.ledger) % W64)
  }

  /** `ac_consensus_handle_vote` */
  ghost function HandleVote(cr: Crypto, n: Node, height: U64, hash: Hash, s: Signer, now: U64): (r: Node)
    requires Sized(n)
    ensures Sized(r)
  {
    var i := Find(n.pending, hash);
    if i == RING then n
    else
      var p := n.pending[i];
      if !VoteOk(cr, n.chain, p, height, s) || Lists(p.signers, s.signer) then n
      else TryCommit(cr, n.(pending := n.pending[i := p.(signers := AddSigner(p.signers, s))]), i, false, now)
  }

  // ---------------------------------------------------------------------------
  // Phases
  // ---------------------------------------------------------------------------

  /** The first candidate of lowest priority among `ps`, or the length. */
  function Lowest(ps: seq<Pending>, h: nat): (i: nat)
    ensures i <= |ps|
    ensures i < |ps| ==> Candidate(ps[i], h)
  {
    if ps == [] then 0
    else
      var last := |ps| - 1;
      var i := Lowest(ps[..last], h);
      if !Candidate(ps[last], h) then (if i == last then |ps| else i)
      else if i == last then last
      else if Less(ps[last].priority, ps[i].priority) then last
      else i
  }

  /** The first candidate with this hash, or the length. */
  function Backed(ps: seq<Pending>, h: nat, hash: Hash): (i: nat)
    ensures i <= |ps|
    ensures i < |ps| ==> Candidate(ps[i], h) && ps[i].hash == hash
    ensures forall j :: 0 <= j < i ==> !(Candidate(ps[j], h) && ps[j].hash == hash)
  {
    if ps == [] || (Candidate(ps[0], h) && ps[0].hash == hash) then 0 else 1 + Backed(ps[1..], h, hash)
  }

  function OurEntry(cr: Crypto, kp: KeyPair, p: Pending, proof: Sig): Signer
    requires p.Held?
  {
    Signer(kp.pk, cr.sign(kp.sk, VoteMessage(p.block.header.height, p.hash)), proof)
  }

  /** `our_vote_now`: nothing unless this node is in the committee of the proposal's slot. */
  ghost function CastVote(cr: Crypto, n: Node, i: nat, lock: Bytes): (r: Node)
    requires Sized(n) && i < RING && n.pending[i].Held?
    ensures Sized(r)
  {
    var p := n.pending[i];
    match CommitteeProof(cr, n, p.block.header.slot)
    case None => n
    case Some(proof) =>
      var s := OurEntry(cr, n.kp, p, proof);
      n.(pending := n.pending[i := p.(signers := AddSigner(p.signers, s))],
         slotVotes := NoteVote(n.slotVotes, p.block.header.slot, p.hash, p.priority),
         votes := n.votes + [Ballot(p.block.header.height, p.hash, s, lock)])
  }

  /** The node holds a vote at the height it is trying to commit, at least as good as `priority`. */
  predicate Locked(n: Node, priority: Bytes)
    requires Sized(n)
  {
    n.voteHeight == Height(n.chain) + 1 && !Less(priority, n.votePriority)
  }

  /** `vote_phase` */
  ghost function VotePhase(cr: Crypto, n: Node, slot: U64, now: U64): (r: Node)
    requires Sized(n)
    ensures Sized(r)
  {
    if !n.validator then n
    else
      var h := Height(n.chain) + 1;
      var m := n.(slotVotes := Touch(n.slotVotes, slot).0);
      var best := Lowest(n.pending, h);
      if !Open(n.slotVotes, slot) || best == RING then m
      else if Locked(n, n.pending[best].priority) then
        var i := Backed(n.pending, h, n.voteBlock);
        if i == RING then m else TryCommit(cr, CastVote(cr, m, i, n.votePriority), i, false, now)
      else
        var p := n.pending[best];
        var v := CastVote(cr, m, best, p.priority).(voteHeight := h, voteBlock := p.hash, votePriority := p.priority);
        TryCommit(cr, v, best, false, now)
  }

  /** One entry of `seal_phase`. */
  ghost function SealOne(cr: Crypto, n: Node, slot: U64, i: nat, now: U64): (r: Node)
    requires Sized(n) && i < RING
    ensures Sized(r)
  {
    var p := n.pending[i];
    if p.Free? || p.block.header.slot != slot || p.committed then n else TryCommit(cr, n, i, true, now)
  }

  /** `seal_phase`, up to entry `k`. */
  ghost function SealUpTo(cr: Crypto, n: Node, slot: U64, k: nat, now: U64): (r: Node)
    requires Sized(n) && k <= RING
    ensures Sized(r)
  {
    if k == 0 then n else SealOne(cr, SealUpTo(cr, n, slot, k - 1, now), slot, k - 1, now)
  }

  /** `am_i_leader`: enough stake, somebody active, and drawn for this slot. */
  ghost predicate Leads(cr: Crypto, n: Node, slot: U64)
    requires Sized(n)
  {
    var proof := VrfProve(cr, LeaderAlpha(SeedFor(cr, n.chain, slot), slot), n.kp);
    && Get(n.chain.ledger, n.kp.pk).stake >= MIN_STAKE
    && ActiveCount(n.chain.ledger) != 0 && cr.leads(Draw(cr, proof), ActiveCount(n.chain.ledger))
  }

  /** The best transactions of the pool. */
  function Candidates(pool: seq<Pool.Entry>): (txs: seq<Tx>)
    ensures |txs| == (if |pool| < SNAPSHOT_MAX then |pool| else SNAPSHOT_MAX)
    ensures forall i :: 0 <= i < |txs| ==> txs[i] == pool[i].tx
  {
    seq(if |pool| < SNAPSHOT_MAX then |pool| else SNAPSHOT_MAX, i requires 0 <= i < |pool| => pool[i].tx)
  }

  /** `slot_routine`: a leader takes its candidates, prunes the pool, builds, stashes and broadcasts. */
  ghost function Propose(cr: Crypto, n: Node, slot: U64, now: U64): (r: Node)
    requires Sized(n)
    ensures Sized(r)
  {
    if !n.validator || !Leads(cr, n, slot) then n
    else
      var pruned := n.(pool := Pool.Unexpired(n.pool, slot));
      match BuildBlock(cr, n.chain, slot, n.kp, Candidates(n.pool))
      case None => pruned
      case Some(b) =>
        var (m, i) := Stash(cr, pruned, b, now);
        TryCommit(cr, m.(blocks := n.blocks + [b]), i, false, now)
  }

  // ---------------------------------------------------------------------------
  // Runs
  // ---------------------------------------------------------------------------

  /** What can happen to a node. */
  datatype Event =
    | BlockIn(b: Block, now: U64)
    | VoteIn(height: U64, hash: Hash, s: Signer, now: U64)
    | Vote(slot: U64, now: U64)
    | Seal(slot: U64, now: U64)
    | Lead(slot: U64, now: U64)
    | Submit(tx: Tx, slot: U64)

  /** The decoder limits what a received block can carry. */
  predicate Bounded(e: Event) {
    e.BlockIn? ==> |e.b.signers| <= COMMITTEE_MAX
  }

  ghost function Step(cr: Crypto, n: Node, e: Event): (r: Node)
    requires Sized(n) && Bounded(e)
    ensures Sized(r)
  {
    match e
    case BlockIn(b, now) => HandleBlock(cr, n, b, now)
    case VoteIn(height, hash, s, now) => HandleVote(cr, n, height, hash, s, now)
    case Vote(slot, now) => VotePhase(cr, n, slot, now)
    case Seal(slot, now) => SealUpTo(cr, n, slot, RING, now)
    case Lead(slot, now) => Propose(cr, n, slot, now)
    case Submit(tx, slot) => n.(pool := Pool.Add(cr, n.chain.chainId, n.pool, n.chain.ledger, tx, slot).0)
  }

  const NO_VOTE := SlotVote(0, ZERO8 + ZERO8, ZERO_HASH, false)

  /** `ac_consensus_new` on a given chain, with an empty pool. */
  function Start(kp: KeyPair, validator: bool, c: Chain): (n: Node)
    requires c.blocks != []
    ensures Sized(n)
  {
    Node(kp, validator, c, [], [Free, Free, Free, Free, Free, Free, Free, Free],
         [NO_VOTE, NO_VOTE, NO_VOTE, NO_VOTE, NO_VOTE, NO_VOTE, NO_VOTE, NO_VOTE],
         0, ZERO_HASH, ZERO8 + ZERO8, 0, 0, [], [], [])
  }

  predicate AllBounded(es: seq<Event>) {
    forall i :: 0 <= i < |es| ==> Bounded(es[i])
  }

  /** Any sequence of events, without a restart. */
  ghost function Steps(cr: Crypto, n: Node, es: seq<Event>): (r: Node)
    requires Sized(n) && AllBounded(es)
    ensures Sized(r)
  {
    if es == [] then n else Step(cr, Steps(cr, n, es[..|es| - 1]), es[|es| - 1])
  }

  // ---------------------------------------------------------------------------
  // What the searches find
  // ---------------------------------------------------------------------------

  lemma FindIs(ps: seq<Pending>, hash: Hash, i: nat)
    requires i <= |ps| && (forall j :: 0 <= j < i ==> !(ps[j].Held? && ps[j].hash == hash))
    requires i < |ps| ==> ps[i].Held? && ps[i].hash == hash
    ensures Find(ps, hash) == i
  {
  }

  lemma FreeIs(ps: seq<Pending>, i: nat)
    requires i <= |ps| && (forall j :: 0 <= j < i ==> ps[j].Held?) && (i < |ps| ==> ps[i].Free?)
    ensures FirstFree(ps) == i
  {
  }

  lemma SlotIs(vs: seq<SlotVote>, slot: U64, i: nat)
    requires i <= |vs| && (forall j :: 0 <= j < i ==> vs[j].slot != slot) && (i < |vs| ==> vs[i].slot == slot)
    ensures SlotAt(vs, slot) == i
  {
  }

  lemma BackedIs(ps: seq<Pending>, h: nat, hash: Hash, i: nat)
    requires i <= |ps| && (forall j :: 0 <= j < i ==> !(Candidate(ps[j], h) && ps[j].hash == hash))
    requires i < |ps| ==> Candidate(ps[i], h) && ps[i].hash == hash
    ensures Backed(ps, h, hash) == i
  {
  }

  lemma {:induction false} LowestSlotIs(vs: seq<SlotVote>, i: nat)
    requires i < |vs| && (forall j :: 0 <= j < i ==> vs[i].slot < vs[j].slot)
    requires forall j :: i <= j < |vs| ==> vs[i].slot <= vs[j].slot
    ensures LowestSlot(vs) == i
  {
    if i < |vs| - 1 {
      LowestSlotIs(vs[..|vs| - 1], i);
    }
  }
}
