/** What the transaction pool holds after any sequence of operations (src/mempool.c). */
module Pool {
  import opened Words
  import opened Types
  import opened Codec
  import opened Ledgers

  const CAPACITY := 8192

  datatype Entry = Entry(tx: Tx, hash: Hash, addedSlot: U64)

  datatype Outcome =
    | Accepted | Duplicate | InvalidSig | WrongChainId | BadKind | Stale | GasBelowMin | FullDropLowTip | NonceGap
    | InsufficientFunds

  /** The 64-bit fee estimate of the funds check; every step may wrap (src/mempool.c:100-105). */
  function Estimate(tx: Tx): U64 {
    var maxFee := Fee(tx.gasLimit, (MIN_BASE_FEE + tx.tip) % W64) % W64;
    var value := if tx.kind == TRANSFER && |tx.body| >= 40 then Rd64(tx.body[32..40]) else 0;
    (maxFee + value) % W64
  }

  /** The checks made before the pool is looked at, in order (src/mempool.c:88-105). */
  function Refusal(cr: Crypto, chainId: U64, l: Ledger, tx: Tx, slot: U64): Option<Outcome> {
    if tx.chainId != chainId then Some(WrongChainId)
    else if tx.version != TX_VERSION then Some(BadKind)
    else if IntrinsicGas(tx.kind).None? then Some(BadKind)
    else if slot >= tx.validUntil then Some(Stale)
    else if tx.gasLimit < NeededGas(tx) then Some(GasBelowMin)
    else if !TxVerify(cr, tx) then Some(InvalidSig)
    else if tx.nonce != Get(l, tx.sender).nonce then Some(NonceGap)
    else if Get(l, tx.sender).balance < Estimate(tx) then Some(InsufficientFunds)
    else None
  }

  // ---------------------------------------------------------------------------
  // Operations on the list of entries
  // ---------------------------------------------------------------------------

  /** The first entry with a lower tip than `tip`. */
  function Rank(s: seq<Entry>, tip: U64): (p: nat)
    ensures p <= |s|
    ensures forall i :: 0 <= i < p ==> s[i].tx.tip >= tip
    ensures p < |s| ==> s[p].tx.tip < tip
  {
    if s == [] || s[0].tx.tip < tip then 0 else 1 + Rank(s[1..], tip)
  }

  /** After every entry with at least the same tip. */
  function Insert(s: seq<Entry>, e: Entry): seq<Entry> {
    s[..Rank(s, e.tx.tip)] + [e] + s[Rank(s, e.tx.tip)..]
  }

  function Without(s: seq<Entry>, i: nat): seq<Entry>
    requires i < |s|
  {
    s[..i] + s[i + 1..]
  }

  predicate SamePair(a: Tx, b: Tx) {
    a.nonce == b.nonce && a.sender == b.sender
  }

  /** The first entry that holds the sender and nonce of `tx`. */
  function Rival(s: seq<Entry>, tx: Tx): (i: nat)
    ensures i <= |s|
    ensures forall j :: 0 <= j < i ==> !SamePair(s[j].tx, tx)
    ensures i < |s| ==> SamePair(s[i].tx, tx)
  {
    if s == [] || SamePair(s[0].tx, tx) then 0 else 1 + Rival(s[1..], tx)
  }

  function Position(s: seq<Entry>, h: Hash): (i: nat)
    ensures i <= |s|
    ensures forall j :: 0 <= j < i ==> s[j].hash != h
    ensures i < |s| ==> s[i].hash == h
  {
    if s == [] || s[0].hash == h then 0 else 1 + Position(s[1..], h)
  }

  /** Room for one more: a full pool gives up its last entry to a strictly higher tip. */
  function Admit(s: seq<Entry>, e: Entry): (seq<Entry>, Outcome) {
    if |s| < CAPACITY then (Insert(s, e), Accepted)
    else if s[|s| - 1].tx.tip >= e.tx.tip then (s, FullDropLowTip)
    else (Insert(s[..|s| - 1], e), Accepted)
  }

  /** src/mempool.c:110-150 */
  function Place(s: seq<Entry>, e: Entry): (seq<Entry>, Outcome) {
    var i := Rival(s, e.tx);
    if Position(s, e.hash) < |s| then (s, Duplicate)
    else if i == |s| then Admit(s, e)
    else if e.tx.tip <= s[i].tx.tip then (s, Duplicate)
    else Admit(Without(s, i), e)
  }

  function Offered(cr: Crypto, tx: Tx, slot: U64): Entry {
    Entry(tx, TxHash(cr, tx), slot)
  }

  function Add(cr: Crypto, chainId: U64, s: seq<Entry>, l: Ledger, tx: Tx, slot: U64): (seq<Entry>, Outcome) {
    match Refusal(cr, chainId, l, tx, slot)
    case Some(why) => (s, why)
    case None => Place(s, Offered(cr, tx, slot))
  }

  function Remove(s: seq<Entry>, h: Hash): seq<Entry> {
    if Position(s, h) < |s| then Without(s, Position(s, h)) else s
  }

  /** The entries that outlive `slot`, in order. */
  function Unexpired(s: seq<Entry>, slot: U64): (r: seq<Entry>)
    ensures |r| <= |s|
  {
    if s == [] then []
    else
      var init := Unexpired(s[..|s| - 1], slot);
      if s[|s| - 1].tx.validUntil <= slot then init else init + [s[|s| - 1]]
  }

  // ---------------------------------------------------------------------------
  // The pool invariant, over any sequence of operations
  // ---------------------------------------------------------------------------

  ghost predicate ByTip(s: seq<Entry>) {
    forall i, j :: 0 <= i < j < |s| ==> s[i].tx.tip >= s[j].tx.tip
  }

  ghost predicate Apart(a: Entry, b: Entry) {
    a.hash != b.hash && !SamePair(a.tx, b.tx)
  }

  ghost predicate AllApart(s: seq<Entry>) {
    forall i, j :: 0 <= i < j < |s| ==> Apart(s[i], s[j])
  }

  /** Tips never rise, no hash and no sender-nonce pair occurs twice, and the size is bounded. */
  ghost predicate Kept(s: seq<Entry>) {
    ByTip(s) && AllApart(s) && |s| <= CAPACITY
  }

  datatype Op = Offer(l: Ledger, tx: Tx, slot: U64) | Drop(h: Hash) | Expire(slot: U64)

  function Step(cr: Crypto, chainId: U64, s: seq<Entry>, op: Op): seq<Entry> {
    match op
    case Offer(l, tx, slot) => Add(cr, chainId, s, l, tx, slot).0
    case Drop(h) => Remove(s, h)
    case Expire(slot) => Unexpired(s, slot)
  }

  function Steps(cr: Crypto, chainId: U64, ops: seq<Op>): seq<Entry> {
    if ops == [] then []
    else Step(cr, chainId, Steps(cr, chainId, ops[..|ops| - 1]), ops[|ops| - 1])
  }

  lemma PartKept(s: seq<Entry>, i: nat)
    requires Kept(s) && i < |s|
    ensures Kept(Without(s, i)) && |Without(s, i)| == |s| - 1
  {
    hide SamePair;
    var r := Without(s, i);
    assert forall j :: 0 <= j < |r| ==> r[j] == if j < i then s[j] else s[j + 1];
  }

  lemma PrefixKept(s: seq<Entry>, k: nat)
    requires Kept(s) && k <= |s|
    ensures Kept(s[..k])
  {
    hide SamePair;
  }

  lemma InsertByTip(s: seq<Entry>, e: Entry)
    requires ByTip(s)
    ensures ByTip(Insert(s, e))
  {
    var p, r := Rank(s, e.tx.tip), Insert(s, e);
    hide Rank;
    assert forall j :: p <= j < |s| ==> s[j].tx.tip < e.tx.tip;
    assert forall j :: 0 <= j < |r| ==> r[j] == if j < p then s[j] else if j == p then e else s[j - 1];
  }

  lemma InsertApart(s: seq<Entry>, e: Entry)
    requires AllApart(s) && forall i :: 0 <= i < |s| ==> Apart(s[i], e)
    ensures AllApart(Insert(s, e))
  {
    var p, r := Rank(s, e.tx.tip), Insert(s, e);
    hide Rank;
    assert forall j :: 0 <= j < |r| ==> r[j] == if j < p then s[j] else if j == p then e else s[j - 1];
    forall i, j | 0 <= i < j < |r| ensures Apart(r[i], r[j]) {
      if i == p {
        assert Apart(s[j - 1], e);
      } else if j == p {
        assert Apart(s[i], e);
      }
    }
  }

  lemma AdmitKept(s: seq<Entry>, e: Entry)
    requires Kept(s) && forall i :: 0 <= i < |s| ==> Apart(s[i], e)
    ensures Kept(Admit(s, e).0)
  {
    hide Rank, Apart;
    if |s| < CAPACITY {
      InsertByTip(s, e);
      InsertApart(s, e);
    } else {
      PrefixKept(s, |s| - 1);
      InsertByTip(s[..|s| - 1], e);
      InsertApart(s[..|s| - 1], e);
    }
  }

  lemma PlaceKept(s: seq<Entry>, e: Entry)
    requires Kept(s)
    ensures Kept(Place(s, e).0)
  {
    hide Rank, Admit, SamePair;
    var i := Rival(s, e.tx);
    if Position(s, e.hash) == |s| {
      if i == |s| {
        AdmitKept(s, e);
      } else if e.tx.tip > s[i].tx.tip {
        var r := Without(s, i);
        assert forall j :: 0 <= j < |r| ==> r[j] == if j < i then s[j] else s[j + 1];
        assert forall j :: 0 <= j < |r| ==> Apart(r[j], e) by {
          OneRival(s, e, i);
        }
        PartKept(s, i);
        AdmitKept(r, e);
      }
    }
  }

  lemma OneRival(s: seq<Entry>, e: Entry, i: nat)
    requires AllApart(s) && i < |s| && SamePair(s[i].tx, e.tx)
    ensures forall j :: 0 <= j < |s| && j != i ==> !SamePair(s[j].tx, e.tx)
  {
    forall j | 0 <= j < |s| && j != i ensures !SamePair(s[j].tx, e.tx) {
      assert Apart(s[if i < j then i else j], s[if i < j then j else i]);
    }
  }

  /** Pruning keeps exactly the unexpired entries, each the image of one index, in order. */
  ghost predicate Sublist(r: seq<Entry>, s: seq<Entry>, at: seq<nat>) {
    && |at| == |r|
    && (forall i :: 0 <= i < |r| ==> at[i] < |s| && r[i] == s[at[i]])
    && (forall i, j :: 0 <= i < j < |r| ==> at[i] < at[j])
  }

  lemma {:induction false} UnexpiredIsSublist(s: seq<Entry>, slot: U64) returns (at: seq<nat>)
    ensures Sublist(Unexpired(s, slot), s, at)
    ensures forall e :: e in Unexpired(s, slot) <==> e in s && e.tx.validUntil > slot
  {
    if s == [] {
      at := [];
    } else {
      var init := s[..|s| - 1];
      at := UnexpiredIsSublist(init, slot);
      assert s == init + [s[|s| - 1]];
      if s[|s| - 1].tx.validUntil > slot {
        at := at + [|s| - 1];
      }
    }
  }

  lemma SublistKept(r: seq<Entry>, s: seq<Entry>, at: seq<nat>)
    requires Kept(s) && Sublist(r, s, at) && |r| <= |s|
    ensures Kept(r)
  {
    hide Apart;
    forall i, j | 0 <= i < j < |r| ensures Apart(r[i], r[j]) && r[i].tx.tip >= r[j].tx.tip {
      assert at[i] < at[j];
      assert Apart(s[at[i]], s[at[j]]);
    }
  }

  lemma StepKept(cr: Crypto, chainId: U64, s: seq<Entry>, op: Op)
    requires Kept(s)
    ensures Kept(Step(cr, chainId, s, op))
  {
    hide Kept, Place, Refusal, Without, Unexpired;
    match op
    case Offer(l, tx, slot) => PlaceKept(s, Offered(cr, tx, slot));
    case Drop(h) =>
      if Position(s, h) < |s| {
        PartKept(s, Position(s, h));
      }
    case Expire(slot) =>
      var at := UnexpiredIsSublist(s, slot);
      SublistKept(Unexpired(s, slot), s, at);
  }

  /** The invariant holds after every sequence of operations on a new pool. */
  lemma {:induction false} StepsKept(cr: Crypto, chainId: U64, ops: seq<Op>)
    ensures Kept(Steps(cr, chainId, ops))
  {
    hide Step;
    if ops != [] {
      StepsKept(cr, chainId, ops[..|ops| - 1]);
      StepKept(cr, chainId, Steps(cr, chainId, ops[..|ops| - 1]), ops[|ops| - 1]);
    }
  }

  // ---------------------------------------------------------------------------
  // The pool holds the best of everything offered
  // ---------------------------------------------------------------------------

  /** The entries with one tip, in order. */
  function WithTip(s: seq<Entry>, tip: U64): seq<Entry> {
    if s == [] then [] else (if s[0].tx.tip == tip then [s[0]] else []) + WithTip(s[1..], tip)
  }

  /** Sorted by falling tip, equal tips in their order in `es`: the stable sort of `es`. */
  ghost predicate IsStableSort(s: seq<Entry>, es: seq<Entry>) {
    ByTip(s) && forall tip :: WithTip(s, tip) == WithTip(es, tip)
  }

  lemma {:induction false} WithTipAppend(s: seq<Entry>, r: seq<Entry>, tip: U64)
    ensures WithTip(s + r, tip) == WithTip(s, tip) + WithTip(r, tip)
  {
    if s == [] {
      assert s + r == r;
    } else {
      WithTipAppend(s[1..], r, tip);
      assert (s + r)[1..] == s[1..] + r;
      var head, a, b := if s[0].tx.tip == tip then [s[0]] else [], WithTip(s[1..], tip), WithTip(r, tip);
      assert WithTip(s + r, tip) == head + (a + b);
      hide WithTip;
      assert head + (a + b) == (head + a) + b;
    }
  }

  lemma {:induction false} WithTipMember(s: seq<Entry>, i: nat)
    requires i < |s|
    ensures WithTip(s, s[i].tx.tip) != []
  {
    if i > 0 {
      WithTipMember(s[1..], i - 1);
    }
  }

  lemma {:induction false} WithTipNonempty(s: seq<Entry>, tip: U64) returns (i: nat)
    requires WithTip(s, tip) != []
    ensures i < |s| && s[i].tx.tip == tip
  {
    if s[0].tx.tip == tip {
      i := 0;
    } else {
      i := WithTipNonempty(s[1..], tip);
      i := i + 1;
    }
  }

  lemma HeadIsHighest(s: seq<Entry>, r: seq<Entry>)
    requires ByTip(s) && s != [] && r != [] && forall tip :: WithTip(s, tip) == WithTip(r, tip)
    ensures s[0].tx.tip >= r[0].tx.tip
  {
    WithTipMember(r, 0);
    var i := WithTipNonempty(s, r[0].tx.tip);
  }

  /** There is one stable sort. */
  lemma {:induction false} StableSortUnique(s: seq<Entry>, r: seq<Entry>)
    requires ByTip(s) && ByTip(r) && forall tip :: WithTip(s, tip) == WithTip(r, tip)
    ensures s == r
  {
    if s == [] {
      if r != [] {
        WithTipMember(r, 0);
      }
    } else if r == [] {
      WithTipMember(s, 0);
    } else {
      HeadIsHighest(s, r);
      HeadIsHighest(r, s);
      assert WithTip(s, s[0].tx.tip)[0] == s[0] && WithTip(r, r[0].tx.tip)[0] == r[0];
      forall tip ensures WithTip(s[1..], tip) == WithTip(r[1..], tip) {
        TailWithTip(s, tip);
        TailWithTip(r, tip);
      }
      StableSortUnique(s[1..], r[1..]);
      assert s == [s[0]] + s[1..] && r == [r[0]] + r[1..];
    }
  }

  lemma TailWithTip(s: seq<Entry>, tip: U64)
    requires s != []
    ensures WithTip(s[1..], tip) == if s[0].tx.tip == tip then WithTip(s, tip)[1..] else WithTip(s, tip)
  {
  }

  /** All offered entries, inserted one by one. */
  function Ranked(es: seq<Entry>): seq<Entry> {
    if es == [] then [] else Insert(Ranked(es[..|es| - 1]), es[|es| - 1])
  }

  lemma InsertWithTip(s: seq<Entry>, e: Entry, tip: U64)
    requires ByTip(s)
    ensures WithTip(Insert(s, e), tip) == WithTip(s + [e], tip)
  {
    var p := Rank(s, e.tx.tip);
    hide Rank;
    assert s == s[..p] + s[p..];
    assert forall i :: p <= i < |s| ==> s[i].tx.tip != e.tx.tip;
    PutBefore(s[..p], s[p..], e, tip);
  }

  lemma PutBefore(high: seq<Entry>, low: seq<Entry>, e: Entry, tip: U64)
    requires forall i :: 0 <= i < |low| ==> low[i].tx.tip != e.tx.tip
    ensures WithTip(high + [e] + low, tip) == WithTip(high + low + [e], tip)
  {
    WithTipAppend(high + [e], low, tip);
    WithTipAppend(high, [e], tip);
    WithTipAppend(high + low, [e], tip);
    WithTipAppend(high, low, tip);
    if tip == e.tx.tip && WithTip(low, tip) != [] {
      var i := WithTipNonempty(low, tip);
    }
    assert WithTip(low, tip) == [] || WithTip([e], tip) == [];
  }

  lemma {:induction false} RankedIsStableSort(es: seq<Entry>)
    ensures IsStableSort(Ranked(es), es)
  {
    if es != [] {
      var init, e := es[..|es| - 1], es[|es| - 1];
      RankedIsStableSort(init);
      InsertByTip(Ranked(init), e);
      forall tip ensures WithTip(Ranked(es), tip) == WithTip(es, tip) {
        InsertWithTip(Ranked(init), e, tip);
        WithTipAppend(Ranked(init), [e], tip);
        WithTipAppend(init, [e], tip);
        assert es == init + [e];
      }
    }
  }

  function Best(s: seq<Entry>): seq<Entry> {
    if |s| <= CAPACITY then s else s[..CAPACITY]
  }

  lemma RankIs(s: seq<Entry>, tip: U64, p: nat)
    requires p <= |s| && (forall i :: 0 <= i < p ==> s[i].tx.tip >= tip) && (p < |s| ==> s[p].tx.tip < tip)
    ensures Rank(s, tip) == p
  {
  }

  /** Keeping the best after each insertion loses nothing. */
  lemma AdmitBest(s: seq<Entry>, e: Entry)
    requires ByTip(s)
    ensures Admit(Best(s), e).0 == Best(Insert(s, e))
  {
    hide Rank, Insert, ByTip;
    InsertLength(s, e);
    if |s| >= CAPACITY {
      if s[CAPACITY - 1].tx.tip >= e.tx.tip {
        TooLow(s, e, CAPACITY);
      } else {
        InsertCut(s, e, CAPACITY);
        assert Best(s)[..CAPACITY - 1] == s[..CAPACITY - 1];
      }
    }
  }

  lemma InsertLength(s: seq<Entry>, e: Entry)
    ensures |Insert(s, e)| == |s| + 1
  {
    hide Rank;
  }

  lemma TooLow(s: seq<Entry>, e: Entry, k: nat)
    requires ByTip(s) && 0 < k <= |s| && s[k - 1].tx.tip >= e.tx.tip
    ensures Insert(s, e)[..k] == s[..k]
  {
    var p := Rank(s, e.tx.tip);
    hide Rank;
    assert p >= k;
  }

  lemma InsertCut(s: seq<Entry>, e: Entry, k: nat)
    requires ByTip(s) && 0 < k <= |s| && s[k - 1].tx.tip < e.tx.tip
    ensures Insert(s, e)[..k] == Insert(s[..k - 1], e)
  {
    var p := Rank(s, e.tx.tip);
    hide Rank;
    RankIs(s[..k - 1], e.tx.tip, p);
    assert Insert(s, e)[..k] == s[..p] + [e] + s[p..k - 1];
  }

  lemma {:induction false} RankedMembers(es: seq<Entry>, e: Entry)
    requires e in Best(Ranked(es))
    ensures e in es
  {
    var init := es[..|es| - 1];
    if e in Ranked(init) {
      RankedInOffered(init, e);
    } else {
      assert e == es[|es| - 1];
    }
  }

  lemma {:induction false} RankedInOffered(es: seq<Entry>, e: Entry)
    requires e in Ranked(es)
    ensures e in es
  {
    var init := es[..|es| - 1];
    if e in Ranked(init) {
      RankedInOffered(init, e);
    } else {
      assert e == es[|es| - 1];
    }
  }

  ghost predicate Offers(ops: seq<Op>) {
    forall i :: 0 <= i < |ops| ==> ops[i].Offer?
  }

  function Entries(cr: Crypto, ops: seq<Op>): (es: seq<Entry>)
    requires Offers(ops)
    ensures |es| == |ops| && forall i :: 0 <= i < |ops| ==> es[i] == Offered(cr, ops[i].tx, ops[i].slot)
  {
    if ops == [] then []
    else
      var last := ops[|ops| - 1];
      Entries(cr, ops[..|ops| - 1]) + [Offered(cr, last.tx, last.slot)]
  }

  /** Every offer passes the checks made before the pool is looked at. */
  ghost predicate Eligible(cr: Crypto, chainId: U64, ops: seq<Op>)
    requires Offers(ops)
  {
    forall i :: 0 <= i < |ops| ==> Refusal(cr, chainId, ops[i].l, ops[i].tx, ops[i].slot).None?
  }

  lemma FreshIsAdmitted(s: seq<Entry>, e: Entry)
    requires forall x :: x in s ==> Apart(x, e)
    ensures Place(s, e) == Admit(s, e)
  {
    hide Admit, Rank;
    assert forall i :: 0 <= i < |s| ==> s[i] in s;
  }

  lemma RankedAreApart(es: seq<Entry>, e: Entry)
    requires AllApart(es + [e])
    ensures forall x :: x in Best(Ranked(es)) ==> Apart(x, e)
  {
    hide Apart, Best, Ranked;
    forall x | x in Best(Ranked(es)) ensures Apart(x, e) {
      RankedMembers(es, x);
      var i :| 0 <= i < |es| && es[i] == x;
      assert Apart((es + [e])[i], (es + [e])[|es|]);
    }
  }

  lemma {:induction false} OffersRanked(cr: Crypto, chainId: U64, ops: seq<Op>)
    requires Offers(ops) && Eligible(cr, chainId, ops) && AllApart(Entries(cr, ops))
    ensures Steps(cr, chainId, ops) == Best(Ranked(Entries(cr, ops)))
  {
    hide Refusal, Rank, Place, Admit, Best, Apart, Offered, Insert;
    if ops == [] {
      assert Ranked([]) == [];
      assert Best([]) == [] by { BestOfNone(); }
    } else {
      var init, last := ops[..|ops| - 1], ops[|ops| - 1];
      var es, e := Entries(cr, init), Offered(cr, last.tx, last.slot);
      var all := Entries(cr, ops);
      assert all == es + [e] && all[..|all| - 1] == es;
      assert AllApart(es) by {
        assert forall i, j :: 0 <= i < j < |es| ==> es[i] == all[i] && es[j] == all[j];
      }
      OffersRanked(cr, chainId, init);
      var s := Best(Ranked(es));
      RankedAreApart(es, e);
      FreshIsAdmitted(s, e);
      RankedIsStableSort(es);
      AdmitBest(Ranked(es), e);
      assert Ranked(all) == Insert(Ranked(es), e);
    }
  }

  lemma BestOfNone()
    ensures Best([]) == []
  {
  }

  /**
   After any number of eligible offers with distinct hashes and sender-nonce pairs, the pool is
   the first 8192 entries of the stable descending-tip sort of everything offered.
   */
  lemma PoolIsBestOffered(cr: Crypto, chainId: U64, ops: seq<Op>, sorted: seq<Entry>)
    requires Offers(ops) && Eligible(cr, chainId, ops) && AllApart(Entries(cr, ops))
    requires IsStableSort(sorted, Entries(cr, ops))
    ensures Steps(cr, chainId, ops) == if |sorted| <= CAPACITY then sorted else sorted[..CAPACITY]
  {
    hide Steps, Refusal, AllApart, ByTip, WithTip;
    OffersRanked(cr, chainId, ops);
    RankedIsStableSort(Entries(cr, ops));
    StableSortUnique(sorted, Ranked(Entries(cr, ops)));
  }
}
