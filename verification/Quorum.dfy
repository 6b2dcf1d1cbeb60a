/**
 Voting weight, the liveness map and the commit certificate (src/chain.c:335-379, 690-718, 883-971),
 and what a double commit proves about its signers.
 */
module Quorum {
  import opened Words
  import opened Types
  import opened Codec
  import opened Isqrt
  import opened Table
  import opened Ledgers

  const LIVENESS_WINDOW := 16
  const MAX_LIVE := 256

  // ---------------------------------------------------------------------------
  // Weight
  // ---------------------------------------------------------------------------

  /** The square root of the stake; nothing below the minimum stake. */
  function Weight(h: Holdings): nat {
    if h.stake >= MIN_STAKE then Sqrt(h.stake) else 0
  }

  ghost function TotalWeight(l: Ledger): nat {
    Total(l.accounts, Weight)
  }

  function Active(h: Holdings): nat {
    if h.stake >= MIN_STAKE then 1 else 0
  }

  /** The number of accounts with enough stake to validate. */
  ghost function ActiveCount(l: Ledger): nat {
    Total(l.accounts, Active)
  }

  /** The combined weight of a list of accounts. */
  function WeightOf(l: Ledger, s: seq<Bytes>): nat {
    Share(l.accounts, Weight, s)
  }

  lemma WeightFits(h: Holdings)
    ensures Weight(h) <= SQRT_MAX
    ensures Weight(h) > 0 <==> h.stake >= MIN_STAKE
  {
    SqrtFits(h.stake);
  }

  /** Fewer than 2^32 accounts cannot wrap the 64-bit total. */
  lemma TotalWeightFits(l: Ledger)
    requires |l.accounts| < W32
    ensures TotalWeight(l) < W64
  {
    forall a | a in l.accounts ensures Weight(l.accounts[a]) <= SQRT_MAX {
      WeightFits(l.accounts[a]);
    }
    TotalBound(l.accounts, Weight, SQRT_MAX);
    MulMonotone(|l.accounts|, W32 - 1, SQRT_MAX);
  }

  lemma {:induction false} WeightOfFits(l: Ledger, s: seq<Bytes>)
    ensures WeightOf(l, s) <= |s| * SQRT_MAX
  {
    if s != [] {
      WeightOfFits(l, s[1..]);
      WeightFits(Get(l, s[0]));
    }
  }

  /** Three times the weight of a full certificate fits a 64-bit word. */
  lemma QuorumSumFits(l: Ledger, s: seq<Bytes>)
    requires |s| <= COMMITTEE_MAX
    ensures WeightOf(l, s) * 3 < W64
  {
    hide WeightOf;
    WeightOfFits(l, s);
    MulMonotone(|s|, COMMITTEE_MAX, SQRT_MAX);
  }

  lemma WeightOfNone(l: Ledger)
    ensures WeightOf(l, []) == 0
  {
  }

  lemma WeightOfHead(l: Ledger, s: seq<Bytes>)
    requires s != []
    ensures WeightOf(l, s) == Weight(Get(l, s[0])) + WeightOf(l, s[1..])
  {
  }

  // ---------------------------------------------------------------------------
  // Liveness
  // ---------------------------------------------------------------------------

  datatype LiveEntry = LiveEntry(addr: Addr, last: U64)

  /** Signed within the window; genesis validators count as live for the first window. */
  predicate Within(height: nat, last: U64) {
    if last == 0 then height < LIVENESS_WINDOW else height < last + LIVENESS_WINDOW
  }

  /** The addresses of the entries inside the window, in map order. */
  function LiveAddrs(live: seq<LiveEntry>, height: nat): seq<Bytes> {
    if live == [] then []
    else
      var e := live[|live| - 1];
      LiveAddrs(live[..|live| - 1], height) + if Within(height, e.last) then [e.addr] else []
  }

  /** The live weight, or the total when nobody is live (src/chain.c:362-379). */
  ghost function LiveWeight(l: Ledger, live: seq<LiveEntry>, height: nat): nat {
    var sum := WeightOf(l, LiveAddrs(live, height));
    if sum == 0 then TotalWeight(l) % W64 else sum
  }

  /** The position of an address in the map, or its size. */
  function Position(live: seq<LiveEntry>, a: Addr): (i: nat)
    ensures i <= |live|
    ensures i < |live| ==> live[i].addr == a
    ensures forall j :: 0 <= j < i ==> live[j].addr != a
  {
    if live == [] then 0
    else
      var i := Position(live[..|live| - 1], a);
      if i < |live| - 1 || live[|live| - 1].addr == a then i else |live|
  }

  /** Raises the entry of `a` to `h`, or appends one while there is room (src/chain.c:335-347). */
  function RecordSigner(live: seq<LiveEntry>, a: Addr, h: U64): seq<LiveEntry> {
    var i := Position(live, a);
    if i < |live| then (if h > live[i].last then live[i := LiveEntry(a, h)] else live)
    else if |live| < MAX_LIVE then live + [LiveEntry(a, h)]
    else live
  }

  function RecordSigners(live: seq<LiveEntry>, ss: seq<Signer>, h: U64): seq<LiveEntry> {
    if ss == [] then live
    else RecordSigner(RecordSigners(live, ss[..|ss| - 1], h), ss[|ss| - 1].signer, h)
  }

  // ---------------------------------------------------------------------------
  // Commit certificates
  // ---------------------------------------------------------------------------

  function LeaderAlpha(seed: Hash, slot: U64): Bytes {
    Ascii("AGCH:LEADER") + (seed + Be64(slot))
  }

  function CommitteeAlpha(seed: Hash, slot: U64): Bytes {
    Ascii("AGCH:COMMITTEE") + (seed + Be64(slot))
  }

  function SignerAddrs(ss: seq<Signer>): (r: seq<Bytes>)
    ensures |r| == |ss|
    ensures forall i :: 0 <= i < |ss| ==> r[i] == ss[i].signer
  {
    seq(|ss|, i requires 0 <= i < |ss| => ss[i].signer)
  }

  /** One entry of a certificate: enough stake, drawn into the committee, a valid vote signature. */
  predicate SignerOk(cr: Crypto, pre: Ledger, alpha: Bytes, vote: Bytes, total: nat, s: Signer) {
    var stake := Get(pre, s.signer).stake;
    && stake >= MIN_STAKE
    && VrfVerify(cr, s.proof, alpha, s.signer)
    && cr.eligible(Draw(cr, s.proof), Sqrt(stake), total)
    && cr.verify(s.sig, vote, s.signer)
  }

  /** Two thirds of the live weight, and more than half of the total (src/chain.c:948-969). */
  predicate Gates(signed: nat, live: nat, total: nat) {
    var denominator := if live == 0 then total else live;
    signed * 3 >= (denominator * 2) % W64 && signed * 2 > total
  }

  /**
   `validate_commit`: the stakes and the total are those before the block, the live weight is taken
   from the state after it, as the code does.
   */
  ghost predicate CommitOk(cr: Crypto, seed: Hash, pre: Ledger, post: Ledger, live: seq<LiveEntry>, height: nat,
      b: Block) {
    && b.signers != [] && TotalWeight(pre) % W64 != 0
    && SignersOk(cr, seed, pre, b)
    && Gates(WeightOf(pre, SignerAddrs(b.signers)), LiveWeight(post, live, height), TotalWeight(pre) % W64)
  }

  ghost predicate SignersOk(cr: Crypto, seed: Hash, pre: Ledger, b: Block) {
    forall i :: 0 <= i < |b.signers| ==>
      SignerOk(cr, pre, CommitteeAlpha(seed, b.header.slot), VoteMessage(b.header.height, BlockHash(cr, b.header)),
               TotalWeight(pre) % W64, b.signers[i])
  }

  // ---------------------------------------------------------------------------
  // Accountable safety
  // ---------------------------------------------------------------------------

  predicate DistinctSigners(ss: seq<Signer>) {
    Distinct(SignerAddrs(ss))
  }

  /** Two votes of one validator, for two different blocks at one height. */
  function Evidence(height: U64, hashA: Hash, s: Signer, hashB: Hash, t: Signer): SlashBody {
    SlashBody(s.signer, height, hashA, s.sig, hashB, t.sig)
  }

  /** Some entry of `a` and some entry of `b` are such a pair, by a validator with stake in `pre`. */
  predicate DoubleSigner(cr: Crypto, pre: Ledger, a: Block, b: Block) {
    exists i, j :: 0 <= i < |a.signers| && 0 <= j < |b.signers| && DoublePair(cr, pre, a, b, i, j)
  }

  predicate DoublePair(cr: Crypto, pre: Ledger, a: Block, b: Block, i: nat, j: nat)
    requires i < |a.signers| && j < |b.signers|
  {
    var s, t := a.signers[i], b.signers[j];
    && s.signer == t.signer && Get(pre, s.signer).stake >= MIN_STAKE
    && a.header.height == b.header.height
    && DoubleVote(cr, Evidence(a.header.height, BlockHash(cr, a.header), s, BlockHash(cr, b.header), t))
  }

  /**
   Two blocks of one height with different hashes, both committed against the same stakes by lists
   of distinct signers, expose a validator that signed both. The live maps, the post-block states and
   even the seeds may differ between the two nodes.
   */
  lemma TwoCommitsExposeADoubleSigner(
      cr: Crypto, pre: Ledger,
      a: Block, seedA: Hash, postA: Ledger, liveA: seq<LiveEntry>, heightA: nat,
      b: Block, seedB: Hash, postB: Ledger, liveB: seq<LiveEntry>, heightB: nat)
    requires CommitOk(cr, seedA, pre, postA, liveA, heightA, a)
    requires CommitOk(cr, seedB, pre, postB, liveB, heightB, b)
    requires a.header.height == b.header.height && BlockHash(cr, a.header) != BlockHash(cr, b.header)
    requires DistinctSigners(a.signers) && DistinctSigners(b.signers)
    requires |pre.accounts| < W32
    ensures DoubleSigner(cr, pre, a, b)
  {
    hide WeightOf, TotalWeight, BlockHash, VoteMessage, CommitteeAlpha, LiveWeight;
    TotalWeightFits(pre);
    var s, t := SignerAddrs(a.signers), SignerAddrs(b.signers);
    QuorumsMeet(pre, s, t);
    var i, j :| 0 <= i < |s| && 0 <= j < |t| && s[i] == t[j];
    assert DoublePair(cr, pre, a, b, i, j);
  }

  lemma QuorumsMeet(l: Ledger, s: seq<Bytes>, t: seq<Bytes>)
    requires Distinct(s) && Distinct(t)
    requires WeightOf(l, s) * 2 > TotalWeight(l) && WeightOf(l, t) * 2 > TotalWeight(l)
    ensures exists i, j :: 0 <= i < |s| && 0 <= j < |t| && s[i] == t[j]
  {
    SharesOverlap(l.accounts, Weight, s, t);
  }

  lemma {:induction false} RepeatedSignerWeight(l: Ledger, a: Addr, n: nat)
    ensures WeightOf(l, seq(n, _ => a)) == n * Weight(Get(l, a))
  {
    hide Weight, WeightOf;
    var s := seq(n, _ => a);
    if n == 0 {
      assert s == [];
      WeightOfNone(l);
    } else {
      RepeatedSignerWeight(l, a, n - 1);
      assert s[1..] == seq(n - 1, _ => a);
      WeightOfHead(l, s);
      Distribute(n - 1, 1, Weight(Get(l, a)));
    }
  }

  /** The evidence survives the wire and `apply_tx` destroys the validator's stake. */
  lemma EvidenceIsAccepted(cr: Crypto, l: Ledger, tx: Tx, slot: U64, baseFee: U64, e: SlashBody)
    requires tx.kind == SLASH_EVIDENCE && tx.body == SlashBytes(e) && DoubleVote(cr, e)
    requires Precheck(l, tx, slot, baseFee).None?
    requires e.validator != tx.sender && Get(l, e.validator).stake > 0
    ensures var (after, r) := ApplyTx(cr, l, tx, slot, baseFee); var reward := Get(l, e.validator).stake / 2;
      && r.Included? && r.fault.None?
      && Get(after, e.validator) == Get(l, e.validator).(stake := 0)
      && var rich := (Get(l, tx.sender).balance + reward) % W64;
        Get(after, tx.sender).balance ==
          if rich < Fee(r.gas, PerGas(tx, baseFee)) then 0 else rich - Fee(r.gas, PerGas(tx, baseFee))
  {
    hide ParseSlash, SlashBytes, DoubleVote, Precheck, Fee, PerGas, Paid, NeededGas, BaseFeeDue, TipDue;
    SlashRoundTrip(e, []);
    PaidIsExact(l, tx, slot, baseFee, Body(cr, l, tx, slot, baseFee));
    assert e.hashA != e.hashB by { DoubleVoteDiffers(cr, e); }
    assert !Precheck(l, tx, slot, baseFee).Some?;
    KindsAreKnown(l, tx, slot, baseFee);
  }

  lemma DoubleVoteDiffers(cr: Crypto, e: SlashBody)
    requires DoubleVote(cr, e)
    ensures e.hashA != e.hashB
  {
  }

  lemma KindsAreKnown(l: Ledger, tx: Tx, slot: U64, baseFee: U64)
    requires Precheck(l, tx, slot, baseFee).None?
    ensures IntrinsicGas(tx.kind).Some?
  {
    hide PerGas, Fee, Value, NeededGas;
  }

  // ---------------------------------------------------------------------------
  // The two gates
  // ---------------------------------------------------------------------------

  predicate DistinctLive(live: seq<LiveEntry>) {
    forall i, j :: 0 <= i < j < |live| ==> live[i].addr != live[j].addr
  }

  lemma {:induction false} LiveAddrsDistinct(live: seq<LiveEntry>, height: nat)
    requires DistinctLive(live)
    ensures Distinct(LiveAddrs(live, height))
    ensures forall a :: a in LiveAddrs(live, height) <==>
      exists i :: 0 <= i < |live| && live[i].addr == a && Within(height, live[i].last)
  {
    if live != [] {
      hide Within;
      var init, e := live[..|live| - 1], live[|live| - 1];
      LiveAddrsDistinct(init, height);
      assert forall i :: 0 <= i < |init| ==> init[i] == live[i];
      assert e.addr !in LiveAddrs(init, height);
      forall a ensures a in LiveAddrs(live, height) <==>
        exists i :: 0 <= i < |live| && live[i].addr == a && Within(height, live[i].last)
      {
        if a == e.addr {
          assert live[|live| - 1].addr == a;
        }
      }
    }
  }

  /** Live weight never exceeds the total weight of the same ledger. */
  lemma LiveAtMostTotal(l: Ledger, live: seq<LiveEntry>, height: nat)
    requires DistinctLive(live) && TotalWeight(l) < W64
    ensures LiveWeight(l, live, height) <= TotalWeight(l)
  {
    LiveAddrsDistinct(live, height);
    ShareBound(l.accounts, Weight, LiveAddrs(live, height));
  }

  /**
   Every weight of at least two thirds of the total passes both gates, if and only if the live weight
   does not exceed the total by more than rounding.
   */
  lemma TwoThirdsSuffice(live: nat, total: nat)
    requires 0 < live < W64 / 2 && 0 < total
    ensures (forall signed: nat {:trigger Gates(signed, live, total)} ::
               signed * 3 >= total * 2 ==> Gates(signed, live, total))
            <==> live * 2 <= (total * 2 + 2) / 3 * 3
  {
    var least := (total * 2 + 2) / 3;
    assert least * 3 >= total * 2;
    if live * 2 > least * 3 {
      assert !Gates(least, live, total);
    }
  }
}
