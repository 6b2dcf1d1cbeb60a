/** What the vote phase does, and when it does nothing (src/consensus.c:312-370, 738-793). */
module Phases {
  import opened Words
  import opened Types
  import opened Codec
  import opened Isqrt
  import opened Ledgers
  import opened Priority
  import Table
  import opened Admission
  import Quorum
  import opened Chains
  import opened Voting
  import opened VoteLocks
  import opened Commits

  // ---------------------------------------------------------------------------
  // One vote per slot
  // ---------------------------------------------------------------------------

  /** Once a vote is noted for a slot, the slot is closed. */
  lemma VotedIsClosed(vs: seq<SlotVote>, slot: U64, hash: Hash, priority: Bytes)
    requires vs != []
    ensures !Open(NoteVote(vs, slot, hash, priority), slot)
  {
    var (ws, i) := Touch(vs, slot);
    var r := NoteVote(vs, slot, hash, priority);
    FirstAt(vs, slot);
    SlotIs(r, slot, i);
  }

  /** The entry for a slot is the first with that slot. */
  lemma FirstAt(vs: seq<SlotVote>, slot: U64)
    requires vs != []
    ensures var (ws, i) := Touch(vs, slot); ws[i].slot == slot && forall j :: 0 <= j < i ==> ws[j].slot != slot
  {
    hide LowestSlot;
  }

  /** The table keeps the best priority seen for a slot, and what was noted about other slots. */
  lemma NotesTheBest(vs: seq<SlotVote>, slot: U64, priority: Bytes)
    requires vs != []
    ensures var (ws, i) := Touch(vs, slot); var r := NoteProposal(vs, slot, priority);
      && r[i] == ws[i].(best := if Less(priority, ws[i].best) then priority else ws[i].best)
      && !Less(priority, r[i].best) && !Less(ws[i].best, r[i].best)
      && forall j :: 0 <= j < |vs| && j != i ==> r[j] == ws[j]
  {
    hide Less, Touch;
    var (ws, i) := Touch(vs, slot);
    LessIrreflexive(priority);
    LessIrreflexive(ws[i].best);
    if Less(priority, ws[i].best) {
      LessAsymmetric(priority, ws[i].best);
    }
  }

  // ---------------------------------------------------------------------------
  // Casting
  // ---------------------------------------------------------------------------

  /**
   A node drawn for the slot of a proposal signs it, counts itself among its signers, closes the slot and
   broadcasts exactly that vote.
   */
  lemma CastsIfDrawn(cr: Crypto, n: Node, i: nat, lock: Bytes)
    requires Sized(n) && i < RING && n.pending[i].Held?
    ensures var r, p := CastVote(cr, n, i, lock), n.pending[i];
      match CommitteeProof(cr, n, p.block.header.slot)
      case None => r == n
      case Some(proof) =>
        && r.votes == n.votes + [Ballot(p.block.header.height, p.hash, OurEntry(cr, n.kp, p, proof), lock)]
        && !Open(r.slotVotes, p.block.header.slot)
        && r.pending == n.pending[i := p.(signers := AddSigner(p.signers, OurEntry(cr, n.kp, p, proof)))]
        && (|p.signers| < COMMITTEE_MAX ==> Lists(AddSigner(p.signers, OurEntry(cr, n.kp, p, proof)), n.kp.pk))
  {
    hide CommitteeProof, NoteVote, Open, VoteMessage;
    var p := n.pending[i];
    VotedIsClosed(n.slotVotes, p.block.header.slot, p.hash, p.priority);
    match CommitteeProof(cr, n, p.block.header.slot)
    case None =>
    case Some(proof) =>
      var s := OurEntry(cr, n.kp, p, proof);
      if !Lists(p.signers, s.signer) && |p.signers| < COMMITTEE_MAX {
        assert (p.signers + [s])[|p.signers|].signer == n.kp.pk;
      }
  }

  // ---------------------------------------------------------------------------
  // Choosing
  // ---------------------------------------------------------------------------

  ghost predicate Votable(n: Node, i: nat)
    requires Sized(n) && i < RING
  {
    Candidate(n.pending[i], Height(n.chain) + 1)
  }

  /** The lock is for the next height and no undecided proposal is strictly better. */
  ghost predicate LockHolds(n: Node)
    requires Sized(n)
  {
    && n.voteHeight == Height(n.chain) + 1
    && forall j :: 0 <= j < RING && Votable(n, j) ==> !Less(n.pending[j].priority, n.votePriority)
  }

  /** What a phase votes for: the locked block while the lock holds, else the first of the best proposals. */
  ghost predicate Choice(n: Node, i: nat)
    requires Sized(n) && i < RING
  {
    && Votable(n, i)
    && if LockHolds(n) then
         n.pending[i].hash == n.voteBlock &&
         forall j :: 0 <= j < i && Votable(n, j) ==> n.pending[j].hash != n.voteBlock
       else
         && (forall j :: 0 <= j < RING && Votable(n, j) ==> !Less(n.pending[j].priority, n.pending[i].priority))
         && (forall j :: 0 <= j < i && Votable(n, j) ==> Less(n.pending[i].priority, n.pending[j].priority))
  }

  /** Below something that is not above. */
  lemma LessThrough(a: Bytes, b: Bytes, c: Bytes)
    requires Less(a, b) && !Less(c, b)
    ensures Less(a, c)
  {
    LessTotal(b, c);
    if Less(b, c) {
      LessTransitive(a, b, c);
    }
  }

  /** Every candidate before the lowest one is strictly worse. */
  lemma {:induction false} LowestIsFirst(ps: seq<Pending>, h: nat, j: nat)
    requires j < Lowest(ps, h) < |ps| && Candidate(ps[j], h)
    ensures Less(ps[Lowest(ps, h)].priority, ps[j].priority)
  {
    hide Less;
    var last := |ps| - 1;
    var init := ps[..last];
    assert init[j] == ps[j];
    if Lowest(ps, h) < last {
      LowestIsFirst(init, h, j);
    } else {
      LowestIsLowest(init, h, j);
      LessThrough(ps[last].priority, init[Lowest(init, h)].priority, ps[j].priority);
    }
  }

  /** The index a phase votes at; the size of the ring when there is nothing to vote for. */
  function Chosen(n: Node): nat
    requires Sized(n)
  {
    var h := Height(n.chain) + 1;
    var best := Lowest(n.pending, h);
    if best < RING && Locked(n, n.pending[best].priority) then Backed(n.pending, h, n.voteBlock) else best
  }

  lemma LockedIsLockHolds(n: Node)
    requires Sized(n) && Lowest(n.pending, Height(n.chain) + 1) < RING
    ensures Locked(n, n.pending[Lowest(n.pending, Height(n.chain) + 1)].priority) <==> LockHolds(n)
  {
    hide Less, Lowest;
    var h := Height(n.chain) + 1;
    var best := Lowest(n.pending, h);
    assert Votable(n, best);
    forall j | 0 <= j < RING && Votable(n, j) && Locked(n, n.pending[best].priority)
      ensures !Less(n.pending[j].priority, n.votePriority)
    {
      LowestIsLowest(n.pending, h, j);
      if Less(n.pending[j].priority, n.votePriority) {
        LessThrough(n.pending[j].priority, n.votePriority, n.pending[best].priority);
      }
    }
  }

  /** The index is a choice, and it is in the ring exactly when there is one. */
  lemma ChosenIsChoice(n: Node)
    requires Sized(n)
    ensures Chosen(n) <= RING
    ensures Chosen(n) < RING ==> Choice(n, Chosen(n))
    ensures forall i :: 0 <= i < RING && Choice(n, i) ==> i == Chosen(n)
  {
    hide Less, Lowest, LockHolds;
    var h := Height(n.chain) + 1;
    var best := Lowest(n.pending, h);
    forall j | 0 <= j < RING && Votable(n, j)
      ensures best < RING && !Less(n.pending[j].priority, n.pending[best].priority)
      ensures j < best ==> Less(n.pending[best].priority, n.pending[j].priority)
    {
      LowestIsLowest(n.pending, h, j);
      if j < best {
        LowestIsFirst(n.pending, h, j);
      }
    }
    if best < RING {
      LockedIsLockHolds(n);
    }
  }

  // ---------------------------------------------------------------------------
  // The phase
  // ---------------------------------------------------------------------------

  /** The phase has something to vote for. */
  ghost predicate HasChoice(n: Node, slot: U64)
    requires Sized(n)
  {
    n.validator && Open(n.slotVotes, slot) && Chosen(n) < RING
  }

  function LockAt(n: Node, i: nat): Bytes
    requires Sized(n) && i < RING && n.pending[i].Held?
  {
    var best := Lowest(n.pending, Height(n.chain) + 1);
    if best < RING && Locked(n, n.pending[best].priority) then n.votePriority else n.pending[i].priority
  }

  lemma PhaseIs(cr: Crypto, n: Node, slot: U64, now: U64) returns (v: Node)
    requires Sized(n) && HasChoice(n, slot)
    ensures Sized(v) && VotePhase(cr, n, slot, now) == TryCommit(cr, v, Chosen(n), false, now)
    ensures var m := CastVote(cr, n.(slotVotes := Touch(n.slotVotes, slot).0), Chosen(n), LockAt(n, Chosen(n)));
      v == m.(voteHeight := v.voteHeight, voteBlock := v.voteBlock, votePriority := v.votePriority)
  {
    hide TryCommit, CastVote, Lowest, Backed, Touch, Open, Locked;
    var h := Height(n.chain) + 1;
    var m := n.(slotVotes := Touch(n.slotVotes, slot).0);
    var best := Lowest(n.pending, h);
    var i := Chosen(n);
    if Locked(n, n.pending[best].priority) {
      v := CastVote(cr, m, i, n.votePriority);
    } else {
      var p := n.pending[best];
      v := CastVote(cr, m, best, p.priority).(voteHeight := h, voteBlock := p.hash, votePriority := p.priority);
    }
  }

  lemma SameDraw(cr: Crypto, n: Node, m: Node, slot: U64)
    requires Sized(n) && Sized(m) && n.chain == m.chain && n.kp == m.kp
    ensures CommitteeProof(cr, n, slot) == CommitteeProof(cr, m, slot)
  {
  }

  /**
   A ready validator that is drawn broadcasts one vote, for its choice; the slot of that proposal is closed,
   and the proposal lists the validator. Otherwise no vote leaves the node.
   */
  lemma VotesForItsChoice(cr: Crypto, n: Node, slot: U64, now: U64)
    requires Sized(n)
    ensures var r := VotePhase(cr, n, slot, now);
      if HasChoice(n, slot) && CommitteeProof(cr, n, n.pending[Chosen(n)].block.header.slot).Some? then
        var i := Chosen(n); var p, s := n.pending[i], n.pending[i].block.header.slot;
        var entry := OurEntry(cr, n.kp, p, CommitteeProof(cr, n, s).value);
        && r.votes == n.votes + [Ballot(p.block.header.height, p.hash, entry, LockAt(n, i))]
        && !Open(r.slotVotes, s)
        && r.pending[i].Held? && r.pending[i].signers == AddSigner(p.signers, entry)
      else r.votes == n.votes
  {
    hide TryCommit, CastVote, CommitteeProof, Open, OurEntry, LockAt, Chosen, Touch, AddSigner;
    ChosenIsChoice(n);
    if HasChoice(n, slot) {
      var v := PhaseIs(cr, n, slot, now);
      var i := Chosen(n);
      var m := n.(slotVotes := Touch(n.slotVotes, slot).0);
      CastsIfDrawn(cr, m, i, LockAt(n, i));
      SameDraw(cr, n, m, n.pending[i].block.header.slot);
      GrowsIffRipe(cr, v, i, false, now);
      KeepsSigners(cr, v, i, false, now);
    } else {
      IdleCastsNothing(cr, n, slot, now);
    }
  }

  lemma IdleCastsNothing(cr: Crypto, n: Node, slot: U64, now: U64)
    requires Sized(n) && !HasChoice(n, slot)
    ensures var r := VotePhase(cr, n, slot, now); r.votes == n.votes && r.chain == n.chain && r.pending == n.pending
  {
    hide TryCommit, CastVote, Touch, Open, Lowest, Backed, Locked;
  }

  /** A second phase for the slot of the proposal just voted for casts nothing. */
  lemma OneVotePerSlot(cr: Crypto, n: Node, slot: U64, now: U64, later: U64)
    requires Sized(n) && HasChoice(n, slot) && n.pending[Chosen(n)].Held?
    requires n.pending[Chosen(n)].block.header.slot == slot && VotePhase(cr, n, slot, now).votes != n.votes
    ensures var r := VotePhase(cr, n, slot, now); VotePhase(cr, r, slot, later).votes == r.votes
  {
    hide VotePhase, CommitteeProof, OurEntry, LockAt, Chosen, Open, AddSigner;
    ChosenIsChoice(n);
    VotesForItsChoice(cr, n, slot, now);
    IdleCastsNothing(cr, VotePhase(cr, n, slot, now), slot, later);
  }

  /** When its own vote makes the choice ripe, the phase itself commits it. */
  lemma PhaseCommitsItsChoice(cr: Crypto, n: Node, slot: U64, now: U64)
    requires Sized(n) && HasChoice(n, slot) && n.pending[Chosen(n)].Held?
    requires var p := n.pending[Chosen(n)]; var proof := CommitteeProof(cr, n, p.block.header.slot);
      && proof.Some?
      && var full := AddSigner(p.signers, OurEntry(cr, n.kp, p, proof.value));
        && ThresholdMet(n.chain, full) && BlockVerdict(cr, n.chain, p.block.(signers := full), now) == Ok
        && !InGrace(n.chain.genesisMs, p.block.header.slot, Since(p, now), now)
    ensures var p := n.pending[Chosen(n)];
      var full := AddSigner(p.signers, OurEntry(cr, n.kp, p, CommitteeProof(cr, n, p.block.header.slot).value));
      VotePhase(cr, n, slot, now).chain == Extend(cr, n.chain, p.block.(signers := full))
  {
    hide TryCommit, CastVote, CommitteeProof, Open, OurEntry, LockAt, Chosen, Touch, AddSigner, ThresholdMet,
      BlockVerdict, InGrace, Extend;
    ChosenIsChoice(n);
    var v := PhaseIs(cr, n, slot, now);
    var i := Chosen(n);
    var m := n.(slotVotes := Touch(n.slotVotes, slot).0);
    CastsIfDrawn(cr, m, i, LockAt(n, i));
    CastKeepsChain(cr, m, i, LockAt(n, i));
    SameDraw(cr, n, m, n.pending[i].block.header.slot);
    GrowsIffRipe(cr, v, i, false, now);
  }

  lemma CastKeepsChain(cr: Crypto, n: Node, i: nat, lock: Bytes)
    requires Sized(n) && i < RING && n.pending[i].Held?
    ensures CastVote(cr, n, i, lock).chain == n.chain && CastVote(cr, n, i, lock).kp == n.kp
  {
    hide CommitteeProof, NoteVote, AddSigner, OurEntry;
  }

  // ---------------------------------------------------------------------------
  // Draws and priorities
  // ---------------------------------------------------------------------------

  /** The number a proof draws: the first eight bytes of its output. */
  function Drawn(cr: Crypto, proof: Sig): nat {
    Val(cr.hash(Ascii("AGCH:VRF-OUT:v1") + proof)[..8])
  }

  /** The proof of a key for a draw in a slot of the chain. */
  ghost function ProofFor(cr: Crypto, n: Node, tag: string, slot: U64): Sig
    requires Sized(n)
  {
    cr.sign(n.kp.sk, Ascii("AGCH:VRF:v1") + (Ascii(tag) + (SeedFor(cr, n.chain, slot) + Be64(slot))))
  }

  /** A node is in the committee of a slot exactly when it has the stake and its proof draws it for its weight. */
  lemma InCommitteeIff(cr: Crypto, n: Node, slot: U64)
    requires Sized(n)
    ensures var stake, proof := Get(n.chain.ledger, n.kp.pk).stake, ProofFor(cr, n, "AGCH:COMMITTEE", slot);
      CommitteeProof(cr, n, slot) ==
        if stake >= 100_000_000 && cr.eligible(Drawn(cr, proof), Sqrt(stake), Quorum.TotalWeight(n.chain.ledger) % W64)
        then Some(proof) else None
  {
    hide SeedFor, Quorum.TotalWeight;
    RdIsVal(cr.hash(Ascii("AGCH:VRF-OUT:v1") + ProofFor(cr, n, "AGCH:COMMITTEE", slot))[..8]);
  }

  /** The active validators are the accounts with at least the minimum stake. */
  lemma {:induction false} ActiveAreCounted(m: map<Bytes, Holdings>)
    ensures Table.Total(m, Quorum.Active) == |set a | a in m && m[a].stake >= 100_000_000|
    decreases |m|
  {
    var all := set a | a in m && m[a].stake >= 100_000_000;
    if m == map[] {
      assert all == {};
    } else {
      var k :| k in m;
      Table.TotalRemove(m, Quorum.Active, k);
      Table.SizeWithout(m, k);
      ActiveAreCounted(m - {k});
      var rest := set a | a in m - {k} && (m - {k})[a].stake >= 100_000_000;
      assert rest == all - {k};
    }
  }

  /** It leads a slot exactly when it has the stake and its proof draws it among the active validators. */
  lemma LeadsIff(cr: Crypto, n: Node, slot: U64)
    requires Sized(n)
    ensures var active := Quorum.ActiveCount(n.chain.ledger);
      Leads(cr, n, slot) <==>
        && Get(n.chain.ledger, n.kp.pk).stake >= 100_000_000 && active != 0
        && cr.leads(Drawn(cr, ProofFor(cr, n, "AGCH:LEADER", slot)), active)
  {
    hide SeedFor, Quorum.ActiveCount;
    RdIsVal(cr.hash(Ascii("AGCH:VRF-OUT:v1") + ProofFor(cr, n, "AGCH:LEADER", slot))[..8]);
  }

  function ProposerWeight(l: Ledger, h: Header): (w: U64)
    requires Get(l, h.proposer).stake > 0
    ensures w == Sqrt(Get(l, h.proposer).stake) > 0
  {
    SqrtIsWord(Get(l, h.proposer).stake);
    PositiveRoot(Get(l, h.proposer).stake);
    Sqrt(Get(l, h.proposer).stake)
  }

  /** The priority of a proposal is the score of its proof divided by the weight of its proposer. */
  lemma PriorityIsScoreByWeight(cr: Crypto, l: Ledger, h: Header)
    requires Get(l, h.proposer).stake > 0
    ensures var g := cr.hash(Ascii("AGCH:PRIO") + cr.hash(Ascii("AGCH:VRF-OUT:v1") + h.vrfProof));
      Val(PriorityOf(cr, l, h)) == Quotient(Rd64(g[..8]), Rd64(g[8..16]), ProposerWeight(l, h))
  {
    hide Quotient, ComputePriority, Val, Rd64, Sqrt, Ascii, Get;
    PriorityBytesSpellQuotient(cr, VrfOut(cr, h.vrfProof), ProposerWeight(l, h));
  }

  lemma PositiveRoot(x: nat)
    requires x > 0
    ensures Sqrt(x) > 0
  {
  }

  /** A proposer without weight comes last: nothing is worse. */
  lemma NoWeightIsLast(cr: Crypto, l: Ledger, h: Header, p: Bytes)
    requires Get(l, h.proposer).stake == 0 && |p| == 16
    ensures !Less(PriorityOf(cr, l, h), p)
  {
    assert Sqrt(0) == 0;
    var q := PriorityOf(cr, l, h);
    assert forall i :: 0 <= i < 16 ==> q[i] == 255;
    AllOnesIsLast(q, p);
  }

  lemma {:induction false} AllOnesIsLast(q: Bytes, p: Bytes)
    requires |q| == |p| && forall i :: 0 <= i < |q| ==> q[i] == 255
    ensures !Less(q, p)
  {
    if q != [] {
      AllOnesIsLast(q[1..], p[1..]);
    }
  }
}
