/** How much weight a double commit convicts, and how repeated signers escape (src/chain.c:910-971). */
module Accountability {
  import opened Words
  import opened Types
  import opened Codec
  import Isqrt
  import opened Table
  import opened Ledgers
  import opened Quorum

  /** Everybody listed in both certificates. */
  function DoubleSigners(a: Block, b: Block): seq<Bytes> {
    Common(SignerAddrs(b.signers), SignerAddrs(a.signers))
  }

  /** `v` signed both blocks, and its two entries are evidence. */
  ghost predicate SignedBoth(cr: Crypto, pre: Ledger, a: Block, b: Block, v: Bytes) {
    exists i, j :: 0 <= i < |a.signers| && 0 <= j < |b.signers| && a.signers[i].signer == v
      && DoublePair(cr, pre, a, b, i, j)
  }

  /** A certificate as `validate_commit` sees it on some node. */
  datatype View = View(seed: Hash, post: Ledger, live: seq<LiveEntry>, height: nat)

  ghost predicate Commits(cr: Crypto, pre: Ledger, v: View, b: Block) {
    CommitOk(cr, v.seed, pre, v.post, v.live, v.height, b)
  }

  ghost function Live(v: View): nat {
    LiveWeight(v.post, v.live, v.height)
  }

  /**
   Two commits at one height convict validators who together weigh at least what the two certificates
   exceed the total by; when everybody is live on both nodes, at least a third of the total.
   */
  lemma DoubleSignersAreHeavy(cr: Crypto, pre: Ledger, a: Block, va: View, b: Block, vb: View)
    requires Commits(cr, pre, va, a) && Commits(cr, pre, vb, b)
    requires a.header.height == b.header.height && BlockHash(cr, a.header) != BlockHash(cr, b.header)
    requires DistinctSigners(a.signers) && DistinctSigners(b.signers) && |pre.accounts| < W32 / 2
    ensures forall v :: v in DoubleSigners(a, b) ==> SignedBoth(cr, pre, a, b, v)
    ensures WeightOf(pre, DoubleSigners(a, b)) + TotalWeight(pre) >=
      WeightOf(pre, SignerAddrs(a.signers)) + WeightOf(pre, SignerAddrs(b.signers))
    ensures Live(va) == Live(vb) == TotalWeight(pre) ==> WeightOf(pre, DoubleSigners(a, b)) * 3 >= TotalWeight(pre)
  {
    hide BlockHash, VoteMessage, CommitteeAlpha, LiveWeight, Common, SignedBoth, Total, Share;
    var s, t := SignerAddrs(a.signers), SignerAddrs(b.signers);
    CommonIsHeavy(pre.accounts, Weight, s, t);
    forall v | v in DoubleSigners(a, b) ensures SignedBoth(cr, pre, a, b, v) {
      CommonMembers(t, s, v);
      BothAreEvidence(cr, pre, a, va, b, vb, v);
    }
    HalfWord(pre);
  }

  lemma BothAreEvidence(cr: Crypto, pre: Ledger, a: Block, va: View, b: Block, vb: View, v: Bytes)
    requires Commits(cr, pre, va, a) && Commits(cr, pre, vb, b)
    requires a.header.height == b.header.height && BlockHash(cr, a.header) != BlockHash(cr, b.header)
    requires v in SignerAddrs(a.signers) && v in SignerAddrs(b.signers)
    ensures SignedBoth(cr, pre, a, b, v)
  {
    hide WeightOf, TotalWeight, BlockHash, VoteMessage, CommitteeAlpha, LiveWeight, Gates;
    var s, t := SignerAddrs(a.signers), SignerAddrs(b.signers);
    var i :| 0 <= i < |s| && s[i] == v;
    var j :| 0 <= j < |t| && t[j] == v;
    assert DoublePair(cr, pre, a, b, i, j);
  }

  lemma HalfWord(l: Ledger)
    requires |l.accounts| < W32 / 2
    ensures TotalWeight(l) < W64 / 2
  {
    hide Weight, Total;
    forall a | a in l.accounts ensures Weight(l.accounts[a]) <= Isqrt.SQRT_MAX {
      WeightFits(l.accounts[a]);
    }
    TotalBound(l.accounts, Weight, Isqrt.SQRT_MAX);
    MulMonotone(|l.accounts|, W32 / 2 - 1, Isqrt.SQRT_MAX);
  }

  // ---------------------------------------------------------------------------
  // Repeated signers
  // ---------------------------------------------------------------------------

  function Repeated(s: Signer, n: nat): (ss: seq<Signer>)
    ensures |ss| == n && forall i :: 0 <= i < n ==> ss[i] == s
  {
    if n == 0 then [] else Repeated(s, n - 1) + [s]
  }

  lemma {:induction false} RepeatedWeight(l: Ledger, s: Signer, n: nat)
    ensures WeightOf(l, SignerAddrs(Repeated(s, n))) == n * Weight(Get(l, s.signer))
  {
    hide Weight, WeightOf;
    assert SignerAddrs(Repeated(s, n)) == seq(n, _ => s.signer);
    RepeatedSignerWeight(l, s.signer, n);
  }

  /** The entry `s` verifies for block `b`. */
  ghost predicate EntryOk(cr: Crypto, pre: Ledger, v: View, b: Block, s: Signer) {
    SignerOk(cr, pre, CommitteeAlpha(v.seed, b.header.slot), VoteMessage(b.header.height, BlockHash(cr, b.header)),
             TotalWeight(pre) % W64, s)
  }

  /** One verified entry, listed `n` times, counts `n` times: the certificate passes exactly when that is enough. */
  lemma RepeatedSignerCommitsIff(cr: Crypto, pre: Ledger, v: View, b: Block, s: Signer, n: nat)
    requires n > 0 && b.signers == Repeated(s, n) && EntryOk(cr, pre, v, b, s) && TotalWeight(pre) % W64 != 0
    ensures Commits(cr, pre, v, b) <==> Gates(n * Weight(Get(pre, s.signer)), Live(v), TotalWeight(pre) % W64)
  {
    hide WeightOf, TotalWeight, LiveWeight, SignerOk, Weight, Gates, CommitteeAlpha, VoteMessage, BlockHash;
    RepeatedWeight(pre, s, n);
  }

  /** A hundredth of the weight is enough for 67 repetitions. */
  lemma HundredthCommits(cr: Crypto, pre: Ledger, v: View, b: Block, s: Signer)
    requires b.signers == Repeated(s, 67) && EntryOk(cr, pre, v, b, s)
    requires 0 < TotalWeight(pre) <= 100 * Weight(Get(pre, s.signer)) && TotalWeight(pre) < W64 / 2
      && Live(v) <= TotalWeight(pre)
    ensures Commits(cr, pre, v, b)
  {
    hide WeightOf, TotalWeight, LiveWeight, EntryOk, Weight, Commits, Gates;
    RepeatedSignerCommitsIff(cr, pre, v, b, s, 67);
    SixtySevenPass(Weight(Get(pre, s.signer)), Live(v), TotalWeight(pre));
  }

  lemma SixtySevenPass(w: nat, live: nat, total: nat)
    requires live <= total <= 100 * w && 0 < total < W64 / 2
    ensures Gates(67 * w, live, total) && total % W64 == total
  {
  }

  /**
   Without distinct signers a double commit convicts nobody: two validators with a hundredth of the
   weight each commit two blocks of one height, and no validator signed both.
   */
  lemma DuplicatesDefeatTheFloor(cr: Crypto, pre: Ledger, a: Block, va: View, s: Signer, b: Block, vb: View, t: Signer)
    requires a.signers == Repeated(s, 67) && EntryOk(cr, pre, va, a, s)
    requires b.signers == Repeated(t, 67) && EntryOk(cr, pre, vb, b, t) && s.signer != t.signer
    requires TotalWeight(pre) <= 100 * Weight(Get(pre, s.signer))
      && TotalWeight(pre) <= 100 * Weight(Get(pre, t.signer))
    requires 0 < TotalWeight(pre) < W64 / 2 && Live(va) <= TotalWeight(pre) && Live(vb) <= TotalWeight(pre)
    ensures Commits(cr, pre, va, a) && Commits(cr, pre, vb, b) && !DoubleSigner(cr, pre, a, b)
  {
    hide WeightOf, TotalWeight, LiveWeight, EntryOk, Weight, Commits, BlockHash, DoubleVote;
    HundredthCommits(cr, pre, va, a, s);
    HundredthCommits(cr, pre, vb, b, t);
  }
}
