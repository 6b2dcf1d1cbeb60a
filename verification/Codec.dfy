/**
 Canonical wire formats as functions, and their two-way inverse laws (src/codec.c).

 `XBytes` is what the encoder writes and `ParseX` what the decoder makes of a buffer. The
 cursor-driven encoders and decoders themselves are in CodecCursors.dfy.
 */
module Codec {
  import opened Words
  import opened Types

  // ---------------------------------------------------------------------------
  // Gas schedule
  // ---------------------------------------------------------------------------

  function IntrinsicGas(kind: Byte): Option<nat> {
    if kind == TRANSFER then Some(21)
    else if kind == STAKE_BOND || kind == STAKE_UNBOND then Some(51)
    else if kind == REGISTER_NAME then Some(221)
    else if kind == SLASH_EVIDENCE then Some(521)
    else None
  }

  function TotalGas(tx: Tx): U64 {
    match IntrinsicGas(tx.kind)
    case None => W64 - 1
    case Some(g) => g + |tx.memo|
  }

  // ---------------------------------------------------------------------------
  // Fixed layouts
  // ---------------------------------------------------------------------------

  const SLASH_WIDTHS: seq<nat> := [32, 8, 32, 64, 32, 64]
  const TX_HEAD_WIDTHS: seq<nat> := [1, 8, 1, 32, 8, 4, 8, 8]
  const HEADER_WIDTHS: seq<nat> := [1, 8, 8, 32, 8, 32, 64, 32, 32, 8, 8, 8, 4]
  const SIGNER_WIDTHS: seq<nat> := [32, 64, 64]
  const HEADER_BYTES := 245

  lemma LayoutSums()
    ensures Sum(SLASH_WIDTHS) == 232 && Sum(TX_HEAD_WIDTHS) == 70
    ensures Sum(HEADER_WIDTHS) == HEADER_BYTES && Sum(SIGNER_WIDTHS) == 160
  {
    hide Sum;
    SlashSum();
    TxHeadSum();
    HeaderSum();
    SignerSum();
  }

  lemma SlashSum()
    ensures Sum(SLASH_WIDTHS) == 232
  {
  }

  lemma TxHeadSum()
    ensures Sum(TX_HEAD_WIDTHS) == 70
  {
  }

  lemma HeaderSum()
    ensures Sum(HEADER_WIDTHS) == HEADER_BYTES
  {
  }

  lemma SignerSum()
    ensures Sum(SIGNER_WIDTHS) == 160
  {
  }

  // ---------------------------------------------------------------------------
  // Transaction bodies
  // ---------------------------------------------------------------------------

  datatype TransferBody = TransferBody(recipient: Addr, amount: U64)
  datatype SlashBody = SlashBody(
    validator: Addr, height: U64, hashA: Hash, sigA: Sig, hashB: Hash, sigB: Sig)

  function TransferBytes(b: TransferBody): Bytes {
    b.recipient + Be64(b.amount)
  }

  function ParseTransfer(body: Bytes): Option<TransferBody> {
    if |body| != 40 then None else Some(TransferBody(body[..32], Rd64(body[32..])))
  }

  function ParseStake(body: Bytes): Option<U64> {
    if |body| != 8 then None else Some(Rd64(body))
  }

  predicate NameChar(c: Byte) {
    97 <= c <= 122 || 48 <= c <= 57 || c == 45
  }

  predicate NameValid(name: Bytes) {
    1 <= |name| <= NAME_MAX_LEN && forall i :: 0 <= i < |name| ==> NameChar(name[i])
  }

  function NameBytes(name: Bytes): Bytes
    requires NameValid(name)
  {
    [|name|] + name
  }

  function ParseName(body: Bytes): Option<Bytes> {
    if |body| < 1 || body[0] == 0 || body[0] > NAME_MAX_LEN || body[0] + 1 != |body| || !NameValid(body[1..])
    then None
    else Some(body[1..])
  }

  function SlashChunks(b: SlashBody): (cs: seq<Bytes>)
    ensures |cs| == 6 && forall i :: 0 <= i < 6 ==> |cs[i]| == SLASH_WIDTHS[i]
  {
    [b.validator, Be64(b.height), b.hashA, b.sigA, b.hashB, b.sigB]
  }

  function SlashBytes(b: SlashBody): (r: Bytes)
    ensures |r| == 232
  {
    LayoutSums();
    JoinLength(SlashChunks(b), SLASH_WIDTHS);
    Join(SlashChunks(b))
  }

  function ParseSlash(body: Bytes): Option<SlashBody> {
    if |body| != 232 then None
    else
      LayoutSums();
      var cs := Cut(body, SLASH_WIDTHS);
      Some(SlashBody(cs[0], Rd64(cs[1]), cs[2], cs[3], cs[4], cs[5]))
  }

  lemma TransferRoundTrip(b: TransferBody)
    ensures ParseTransfer(TransferBytes(b)) == Some(b)
  {
    assert TransferBytes(b)[..32] == b.recipient && TransferBytes(b)[32..] == Be64(b.amount);
    Rd64Be64(b.amount);
  }

  lemma NameRoundTrip(name: Bytes)
    requires NameValid(name)
    ensures ParseName(NameBytes(name)) == Some(name)
  {
    assert NameBytes(name)[1..] == name;
  }

  /** Equivocation evidence survives the wire, and one body has one encoding. */
  lemma SlashRoundTrip(b: SlashBody, body: Bytes)
    ensures ParseSlash(SlashBytes(b)) == Some(b)
    ensures ParseSlash(body).Some? ==> SlashBytes(ParseSlash(body).value) == body
  {
    hide Sum, Cut, Join;
    LayoutSums();
    CutJoin(SlashChunks(b), SLASH_WIDTHS, []);
    assert Join(SlashChunks(b)) + [] == SlashBytes(b);
    Rd64Be64(b.height);
    if |body| == 232 {
      JoinCut(body, SLASH_WIDTHS);
      assert SlashChunks(ParseSlash(body).value) == Cut(body, SLASH_WIDTHS);
      assert body[..232] == body;
    }
  }

  // ---------------------------------------------------------------------------
  // Transactions
  // ---------------------------------------------------------------------------

  /** The eight fixed-width fields: 70 bytes. */
  function TxHead(t: RawTx): (cs: seq<Bytes>)
    ensures |cs| == 8 && forall i :: 0 <= i < 8 ==> |cs[i]| == TX_HEAD_WIDTHS[i]
  {
    [[t.version], Be64(t.chainId), [t.kind], t.sender, Be64(t.nonce), Be32(t.gasLimit), Be64(t.tip),
     Be64(t.validUntil)]
  }

  lemma TxHeadLength(t: RawTx)
    ensures |Join(TxHead(t))| == 70
  {
    LayoutSums();
    JoinLength(TxHead(t), TX_HEAD_WIDTHS);
  }

  /** A variable-length field: u32 length, then the bytes. */
  function VarBytes(x: Bytes): Bytes
    requires |x| < W32
  {
    Be32(|x|) + x
  }

  function TxBytes(t: Tx): (r: Bytes)
    ensures |r| == 142 + |t.body| + |t.memo|
  {
    TxHeadLength(t);
    Join(TxHead(t)) + (VarBytes(t.body) + (VarBytes(t.memo) + t.sig))
  }

  function SignableBytes(t: Tx): Bytes {
    Ascii("AGCH:TX:v1") + (Join(TxHead(t)) + (VarBytes(t.body) + VarBytes(t.memo)))
  }

  /** A transaction without its signature: what the signable bytes determine. */
  function Unsigned(t: Tx): Tx {
    t.(sig := ZERO_SIG)
  }

  /** The body and memo lengths of the transaction a buffer starts with. */
  function TxLengths(buf: Bytes): (r: Option<(nat, nat)>)
    ensures r.Some? ==> r.value.0 <= BODY_MAX && r.value.1 <= MEMO_MAX && 142 + r.value.0 + r.value.1 <= |buf|
  {
    if |buf| < 74 then None
    else
      var bodyLen := Rd32(buf[70..74]);
      if bodyLen > BODY_MAX || |buf| < 78 + bodyLen then None
      else
        var memoLen := Rd32(buf[74 + bodyLen..78 + bodyLen]);
        if memoLen > MEMO_MAX || |buf| < 142 + bodyLen + memoLen then None
        else Some((bodyLen, memoLen))
  }

  /** The byte length of the transaction a buffer starts with (src/codec.c:379-389). */
  function TxWindow(buf: Bytes): (n: Option<nat>)
    ensures n.Some? ==> 142 <= n.value <= |buf|
  {
    match TxLengths(buf)
    case None => None
    case Some((bodyLen, memoLen)) => Some(142 + bodyLen + memoLen)
  }

  function TxOf(h: seq<Bytes>, body: Bytes, memo: Bytes, sig: Sig): Tx
    requires |h| == 8 && forall i :: 0 <= i < 8 ==> |h[i]| == TX_HEAD_WIDTHS[i]
    requires |body| <= BODY_MAX && |memo| <= MEMO_MAX
  {
    RawTx.Tx(h[0][0], Rd64(h[1]), h[2][0], h[3], Rd64(h[4]), Rd32(h[5]), Rd64(h[6]), Rd64(h[7]), body, memo, sig)
  }

  /** The transaction that fills a buffer exactly (src/codec.c:178-199). */
  function ParseTx(buf: Bytes): Option<Tx> {
    if |buf| > TX_MAX_BYTES || TxWindow(buf) != Some(|buf|) then None
    else
      hide Sum, Cut, Rd32;
      LayoutSums();
      var m := 74 + TxLengths(buf).value.0;
      Some(TxOf(Cut(buf, TX_HEAD_WIDTHS), buf[74..m], buf[m + 4..|buf| - 64], buf[|buf| - 64..]))
  }

  /** Where the parts of an encoded transaction lie, whatever follows it. */
  lemma TxLayout(t: Tx, rest: Bytes)
    ensures var buf := TxBytes(t) + rest; var m := 74 + |t.body|; var s := m + 4 + |t.memo|;
      && buf[..70] == Join(TxHead(t))
      && buf[70..74] == Be32(|t.body|) && buf[74..m] == t.body
      && buf[m..m + 4] == Be32(|t.memo|) && buf[m + 4..s] == t.memo
      && s + 64 == |TxBytes(t)| && buf[s..s + 64] == t.sig
  {
    TxHeadLength(t);
  }

  /** The length walker finds exactly the window the encoder wrote, whatever follows. */
  lemma WindowIsExact(t: Tx, rest: Bytes)
    ensures TxWindow(TxBytes(t) + rest) == Some(|TxBytes(t)|)
  {
    TxLayout(t, rest);
    Rd32Be32(|t.body|);
    Rd32Be32(|t.memo|);
  }

  lemma TxRoundTrip(t: Tx)
    ensures ParseTx(TxBytes(t)) == Some(t)
  {
    hide Sum, Cut, Join;
    var buf := TxBytes(t);
    assert buf + [] == buf;
    WindowIsExact(t, []);
    TxLayout(t, []);
    TxHeadLength(t);
    LayoutSums();
    assert buf == Join(TxHead(t)) + buf[70..];
    CutJoin(TxHead(t), TX_HEAD_WIDTHS, buf[70..]);
    Rd64Be64(t.chainId);
    Rd64Be64(t.nonce);
    Rd32Be32(t.gasLimit);
    Rd64Be64(t.tip);
    Rd64Be64(t.validUntil);
    Rd32Be32(|t.body|);
  }

  /** A buffer the decoder takes is the encoding of what it returns. */
  lemma TxReencode(buf: Bytes)
    requires ParseTx(buf).Some?
    ensures TxBytes(ParseTx(buf).value) == buf
  {
    hide Sum, Cut, Join, Be32, TxOf;
    var t := ParseTx(buf).value;
    var m := 74 + TxLengths(buf).value.0;
    LayoutSums();
    JoinCut(buf, TX_HEAD_WIDTHS);
    TxOfParts(Cut(buf, TX_HEAD_WIDTHS), buf[74..m], buf[m + 4..|buf| - 64], buf[|buf| - 64..]);
    assert |t.body| == Rd32(buf[70..74]) && |t.memo| == Rd32(buf[m..m + 4]);
    assert buf[..Sum(TX_HEAD_WIDTHS)] == buf[..70];
    FiveParts(buf, 70, 74, m, m + 4, |buf| - 64);
  }

  lemma TxOfParts(c: seq<Bytes>, body: Bytes, memo: Bytes, sig: Sig)
    requires |c| == 8 && forall i :: 0 <= i < 8 ==> |c[i]| == TX_HEAD_WIDTHS[i]
    requires |body| <= BODY_MAX && |memo| <= MEMO_MAX
    ensures var t := TxOf(c, body, memo, sig); TxHead(t) == c && t.body == body && t.memo == memo && t.sig == sig
  {
    assert c[0] == [c[0][0]] && c[2] == [c[2][0]];
  }

  lemma FiveParts(buf: Bytes, a: nat, b: nat, c: nat, d: nat, e: nat)
    requires a <= b <= c <= d <= e <= |buf|
    ensures buf == buf[..a] + ((buf[a..b] + buf[b..c]) + ((buf[c..d] + buf[d..e]) + buf[e..]))
  {
    assert buf[a..] == buf[a..c] + buf[c..] && buf[a..c] == buf[a..b] + buf[b..c];
    assert buf[c..] == buf[c..e] + buf[e..] && buf[c..e] == buf[c..d] + buf[d..e];
  }

  /** The signable bytes determine every field but the signature. */
  lemma SignableInjective(t: Tx, u: Tx)
    requires SignableBytes(t) == SignableBytes(u)
    ensures Unsigned(t) == Unsigned(u)
  {
    hide TxBytes, SignableBytes, Unsigned, ParseTx;
    SignableTail(t);
    SignableTail(u);
    TxRoundTrip(Unsigned(t));
    TxRoundTrip(Unsigned(u));
  }

  /** After its domain tag, the signable form is the encoding without the signature. */
  lemma SignableTail(t: Tx)
    ensures |SignableBytes(t)| >= 10 && TxBytes(Unsigned(t)) == SignableBytes(t)[10..] + ZERO_SIG
  {
    hide Join, VarBytes, Ascii;
    assert TxHead(Unsigned(t)) == TxHead(t) by { SameHead(t); }
    hide TxHead;
    var d, h, v, w := Ascii("AGCH:TX:v1"), Join(TxHead(t)), VarBytes(t.body), VarBytes(t.memo);
    assert SignableBytes(t)[10..] == h + (v + w);
    assert h + (v + (w + ZERO_SIG)) == (h + (v + w)) + ZERO_SIG;
  }

  lemma SameHead(t: Tx)
    ensures TxHead(Unsigned(t)) == TxHead(t)
  {
  }

  function TxHash(cr: Crypto, t: Tx): Hash {
    cr.hash(SignableBytes(t))
  }

  predicate TxVerify(cr: Crypto, t: Tx) {
    cr.verify(t.sig, TxHash(cr, t), t.sender)
  }

  // ---------------------------------------------------------------------------
  // Headers, votes, blocks
  // ---------------------------------------------------------------------------

  function HeaderChunks(h: Header): (cs: seq<Bytes>)
    ensures |cs| == 13 && forall i :: 0 <= i < 13 ==> |cs[i]| == HEADER_WIDTHS[i]
  {
    [[h.version], Be64(h.height), Be64(h.slot), h.parentHash, Be64(h.timestampMs), h.proposer, h.vrfProof,
     h.stateRoot, h.txRoot, Be64(h.baseFee), Be64(h.gasUsed), Be64(h.gasLimit), Be32(h.txCount)]
  }

  function HeaderBytes(h: Header): (r: Bytes)
    ensures |r| == HEADER_BYTES
  {
    LayoutSums();
    JoinLength(HeaderChunks(h), HEADER_WIDTHS);
    Join(HeaderChunks(h))
  }

  function HeaderOf(c: seq<Bytes>): Header
    requires |c| == 13 && forall i :: 0 <= i < 13 ==> |c[i]| == HEADER_WIDTHS[i]
  {
    Header(c[0][0], Rd64(c[1]), Rd64(c[2]), c[3], Rd64(c[4]), c[5], c[6], c[7], c[8], Rd64(c[9]),
           Rd64(c[10]), Rd64(c[11]), Rd32(c[12]))
  }

  function ParseHeader(buf: Bytes): (r: Option<Header>)
    ensures r.Some? <==> |buf| >= HEADER_BYTES
  {
    if |buf| < HEADER_BYTES then None
    else
      hide Sum, Cut;
      LayoutSums();
      Some(HeaderOf(Cut(buf, HEADER_WIDTHS)))
  }

  lemma HeaderRoundTrip(h: Header, rest: Bytes)
    ensures ParseHeader(HeaderBytes(h) + rest) == Some(h)
  {
    hide Sum, Cut, Join;
    LayoutSums();
    CutJoin(HeaderChunks(h), HEADER_WIDTHS, rest);
    Rd64Be64(h.height);
    Rd64Be64(h.slot);
    Rd64Be64(h.timestampMs);
    Rd64Be64(h.baseFee);
    Rd64Be64(h.gasUsed);
    Rd64Be64(h.gasLimit);
    Rd32Be32(h.txCount);
  }

  lemma HeaderReencode(buf: Bytes)
    requires ParseHeader(buf).Some?
    ensures HeaderBytes(ParseHeader(buf).value) == buf[..HEADER_BYTES]
  {
    hide Sum, Cut, Join;
    LayoutSums();
    JoinCut(buf, HEADER_WIDTHS);
    var c := Cut(buf, HEADER_WIDTHS);
    assert c[0] == [c[0][0]];
    assert HeaderChunks(ParseHeader(buf).value) == c;
  }

  lemma HeaderInjective(a: Header, b: Header)
    requires HeaderBytes(a) == HeaderBytes(b)
    ensures a == b
  {
    HeaderRoundTrip(a, []);
    HeaderRoundTrip(b, []);
  }

  function BlockPreimage(h: Header): Bytes {
    Ascii("AGCH:BLOCK:v1") + HeaderBytes(h)
  }

  function BlockHash(cr: Crypto, h: Header): Hash {
    cr.hash(BlockPreimage(h))
  }

  function TxHashes(cr: Crypto, txs: seq<Tx>): (r: Bytes)
    ensures |r| == 32 * |txs|
  {
    if txs == [] then [] else TxHash(cr, txs[0]) + TxHashes(cr, txs[1..])
  }

  function TxRoot(cr: Crypto, txs: seq<Tx>): Hash {
    if txs == [] then ZERO_HASH else cr.hash(TxHashes(cr, txs))
  }

  /** The message a commit vote signs (src/codec.c:301-308). */
  function VoteMessage(height: U64, blockHash: Hash): Bytes {
    Ascii("AGCH:VOTE:v1") + (Be64(height) + blockHash)
  }

  /** A vote message is 52 bytes that determine the height and the block. */
  lemma VoteMessageBinds(h: U64, a: Hash, k: U64, b: Hash)
    ensures |VoteMessage(h, a)| == 52
    ensures VoteMessage(h, a) == VoteMessage(k, b) <==> h == k && a == b
  {
    hide Be64, Ascii;
    var m, n := VoteMessage(h, a), VoteMessage(k, b);
    assert m[12..20] == Be64(h) && m[20..] == a && n[12..20] == Be64(k) && n[20..] == b;
    Rd64Be64(h);
    Rd64Be64(k);
  }

  function SignerChunks(s: Signer): (cs: seq<Bytes>)
    ensures |cs| == 3 && forall i :: 0 <= i < 3 ==> |cs[i]| == SIGNER_WIDTHS[i]
  {
    [s.signer, s.sig, s.proof]
  }

  function SignerBytes(s: Signer): (r: Bytes)
    ensures |r| == 160
  {
    LayoutSums();
    JoinLength(SignerChunks(s), SIGNER_WIDTHS);
    Join(SignerChunks(s))
  }

  function ParseSigner(buf: Bytes): Signer
    requires |buf| >= 160
  {
    LayoutSums();
    var c := Cut(buf, SIGNER_WIDTHS);
    Signer(c[0], c[1], c[2])
  }

  function TxsBytes(txs: seq<Tx>): Bytes {
    if txs == [] then [] else TxBytes(txs[0]) + TxsBytes(txs[1..])
  }

  function SignersBytes(ss: seq<Signer>): (r: Bytes)
    ensures |r| == 160 * |ss|
  {
    if ss == [] then [] else SignerBytes(ss[0]) + SignersBytes(ss[1..])
  }

  function BlockBytes(b: Block): Bytes
    requires |b.signers| < W32
  {
    HeaderBytes(b.header) + (TxsBytes(b.txs) + (Be32(|b.signers|) + SignersBytes(b.signers)))
  }

  /** `n` transactions from the front of a buffer, and what is left. */
  function ParseTxs(buf: Bytes, n: nat): Option<(seq<Tx>, Bytes)> {
    if n == 0 then Some(([], buf))
    else
      match TxWindow(buf)
      case None => None
      case Some(w) =>
        match ParseTx(buf[..w])
        case None => None
        case Some(t) =>
          match ParseTxs(buf[w..], n - 1)
          case None => None
          case Some((ts, rest)) => Some(([t] + ts, rest))
  }

  function ParseSigners(buf: Bytes, n: nat): (r: Option<(seq<Signer>, Bytes)>)
    ensures r.Some? <==> |buf| >= 160 * n
  {
    if n == 0 then Some(([], buf))
    else if |buf| < 160 then None
    else
      match ParseSigners(buf[160..], n - 1)
      case None => None
      case Some((ss, rest)) => Some(([ParseSigner(buf)] + ss, rest))
  }

  /** The block a buffer starts with, and the bytes after it (src/codec.c:347-413). */
  function ParseBlock(buf: Bytes): Option<(Block, Bytes)> {
    match ParseHeader(buf)
    case None => None
    case Some(h) =>
      if h.txCount > BLOCK_MAX_TXS then None
      else
        match ParseTxs(buf[HEADER_BYTES..], h.txCount)
        case None => None
        case Some((txs, tail)) =>
          if |tail| < 4 then None
          else
            var n := Rd32(tail[..4]);
            if n > COMMITTEE_MAX then None
            else
              match ParseSigners(tail[4..], n)
              case None => None
              case Some((signers, rest)) => Some((Block(h, txs, signers), rest))
  }

  lemma SignerRoundTrip(s: Signer, rest: Bytes)
    ensures ParseSigner(SignerBytes(s) + rest) == s
  {
    LayoutSums();
    CutJoin(SignerChunks(s), SIGNER_WIDTHS, rest);
  }

  lemma SignerReencode(buf: Bytes)
    requires |buf| >= 160
    ensures SignerBytes(ParseSigner(buf)) == buf[..160]
  {
    LayoutSums();
    JoinCut(buf, SIGNER_WIDTHS);
    assert SignerChunks(ParseSigner(buf)) == Cut(buf, SIGNER_WIDTHS);
  }

  lemma {:induction false} TxsRoundTrip(txs: seq<Tx>, rest: Bytes)
    ensures ParseTxs(TxsBytes(txs) + rest, |txs|) == Some((txs, rest))
  {
    hide TxBytes, ParseTx, TxWindow;
    if txs == [] {
      assert [] + rest == rest;
    } else {
      var more := TxsBytes(txs[1..]) + rest;
      var buf := TxsBytes(txs) + rest;
      assert buf == TxBytes(txs[0]) + more;
      WindowIsExact(txs[0], more);
      TxRoundTrip(txs[0]);
      assert buf[..|TxBytes(txs[0])|] == TxBytes(txs[0]) && buf[|TxBytes(txs[0])|..] == more;
      TxsRoundTrip(txs[1..], rest);
      assert [txs[0]] + txs[1..] == txs;
    }
  }

  lemma {:induction false} TxsReencode(buf: Bytes, n: nat)
    requires ParseTxs(buf, n).Some?
    ensures var (txs, rest) := ParseTxs(buf, n).value; |txs| == n && TxsBytes(txs) + rest == buf
  {
    hide TxBytes, ParseTx, TxWindow;
    if n == 0 {
      assert [] + buf == buf;
    } else {
      var w := TxWindow(buf).value;
      TxReencode(buf[..w]);
      TxsReencode(buf[w..], n - 1);
      var (ts, rest) := ParseTxs(buf[w..], n - 1).value;
      var txs := ParseTxs(buf, n).value.0;
      assert txs[1..] == ts;
      assert buf == buf[..w] + buf[w..];
    }
  }

  lemma {:induction false} SignersRoundTrip(ss: seq<Signer>, rest: Bytes)
    ensures ParseSigners(SignersBytes(ss) + rest, |ss|) == Some((ss, rest))
  {
    hide SignerBytes, ParseSigner;
    if ss == [] {
      assert [] + rest == rest;
    } else {
      var more := SignersBytes(ss[1..]) + rest;
      var buf := SignersBytes(ss) + rest;
      assert buf == SignerBytes(ss[0]) + more;
      SignerRoundTrip(ss[0], more);
      assert buf[160..] == more;
      SignersRoundTrip(ss[1..], rest);
      assert [ss[0]] + ss[1..] == ss;
    }
  }

  lemma {:induction false} SignersReencode(buf: Bytes, n: nat)
    requires ParseSigners(buf, n).Some?
    ensures var (ss, rest) := ParseSigners(buf, n).value; |ss| == n && SignersBytes(ss) + rest == buf
  {
    hide SignerBytes, ParseSigner;
    if n == 0 {
      assert [] + buf == buf;
    } else {
      SignerReencode(buf);
      SignersReencode(buf[160..], n - 1);
      var (tail, rest) := ParseSigners(buf[160..], n - 1).value;
      assert ParseSigners(buf, n).value.0[1..] == tail;
      assert buf == buf[..160] + buf[160..];
    }
  }

  /** Decoding an encoded block gives the block back and leaves what followed it. */
  lemma BlockRoundTrip(b: Block, rest: Bytes)
    requires Wire(b)
    ensures ParseBlock(BlockBytes(b) + rest) == Some((b, rest))
  {
    hide HeaderBytes, ParseHeader, TxsBytes, ParseTxs, SignersBytes, ParseSigners;
    hide Be32, Rd32;
    var n, more := Be32(|b.signers|), SignersBytes(b.signers) + rest;
    var buf := BlockBytes(b) + rest;
    BlockLayout(HeaderBytes(b.header), TxsBytes(b.txs), n, SignersBytes(b.signers), rest);
    HeaderRoundTrip(b.header, TxsBytes(b.txs) + (n + more));
    TxsRoundTrip(b.txs, n + more);
    Rd32Be32(|b.signers|);
    SignersRoundTrip(b.signers, rest);
  }

  lemma BlockLayout(h: Bytes, ts: Bytes, n: Bytes, ss: Bytes, rest: Bytes)
    requires |h| == HEADER_BYTES && |n| == 4
    ensures var buf := h + (ts + (n + ss)) + rest; var tail := n + (ss + rest);
      && buf == h + (ts + tail) && buf[HEADER_BYTES..] == ts + tail
      && tail[..4] == n && tail[4..] == ss + rest
  {
    assert h + (ts + (n + ss)) + rest == h + (ts + (n + (ss + rest)));
  }

  /** A decoded block meets the wire limits, and re-encoding it gives exactly the consumed bytes. */
  lemma BlockReencode(buf: Bytes)
    requires ParseBlock(buf).Some?
    ensures var (b, rest) := ParseBlock(buf).value; Wire(b) && BlockBytes(b) + rest == buf
  {
    hide HeaderBytes, ParseHeader, TxsBytes, ParseTxs, SignersBytes, ParseSigners;
    var (b, rest) := ParseBlock(buf).value;
    HeaderReencode(buf);
    TxsReencode(buf[HEADER_BYTES..], b.header.txCount);
    var tail := ParseTxs(buf[HEADER_BYTES..], b.header.txCount).value.1;
    SignersReencode(tail[4..], Rd32(tail[..4]));
    assert buf == buf[..HEADER_BYTES] + buf[HEADER_BYTES..];
    assert tail == tail[..4] + tail[4..];
    BlockLayout(HeaderBytes(b.header), TxsBytes(b.txs), Be32(|b.signers|), SignersBytes(b.signers), rest);
  }

  // ---------------------------------------------------------------------------
  // What a block hash pins down
  // ---------------------------------------------------------------------------

  /** Every string hashed when the hash and the transaction root of `b` are formed. */
  function Preimages(cr: Crypto, b: Block): set<Bytes> {
    {BlockPreimage(b.header), TxHashes(cr, b.txs)} + (set i | 0 <= i < |b.txs| :: SignableBytes(b.txs[i]))
  }

  /** Two blocks with the same content: everything but signatures and certificate. */
  predicate SameContent(a: Block, b: Block) {
    && a.header == b.header
    && |a.txs| == |b.txs|
    && forall i :: 0 <= i < |a.txs| ==> Unsigned(a.txs[i]) == Unsigned(b.txs[i])
  }

  lemma {:induction false} TxHashesAt(cr: Crypto, txs: seq<Tx>, i: nat)
    requires i < |txs|
    ensures TxHashes(cr, txs)[32 * i..32 * i + 32] == TxHash(cr, txs[i])
  {
    if i > 0 {
      TxHashesAt(cr, txs[1..], i - 1);
      assert TxHashes(cr, txs)[32..] == TxHashes(cr, txs[1..]);
      assert TxHashes(cr, txs)[32..][32 * (i - 1)..32 * (i - 1) + 32] == TxHashes(cr, txs)[32 * i..32 * i + 32];
    }
  }

  /**
   Blocks with one hash, whose roots match their transactions, have one content unless two of
   the strings hashed for them collide.
   */
  lemma HashPinsContent(cr: Crypto, a: Block, b: Block)
    requires BlockHash(cr, a.header) == BlockHash(cr, b.header)
    requires a.header.txCount == |a.txs| && b.header.txCount == |b.txs|
    requires a.header.txRoot == TxRoot(cr, a.txs) && b.header.txRoot == TxRoot(cr, b.txs)
    requires NoCollision(cr, Preimages(cr, a) + Preimages(cr, b))
    ensures SameContent(a, b)
  {
    var pa, pb := BlockPreimage(a.header), BlockPreimage(b.header);
    assert pa in Preimages(cr, a) && pb in Preimages(cr, b);
    assert pa == pb;
    var d := Ascii("AGCH:BLOCK:v1");
    assert HeaderBytes(a.header) == pa[|d|..] && HeaderBytes(b.header) == pb[|d|..];
    HeaderInjective(a.header, b.header);
    forall i | 0 <= i < |a.txs|
      ensures Unsigned(a.txs[i]) == Unsigned(b.txs[i])
    {
      var ha, hb := TxHashes(cr, a.txs), TxHashes(cr, b.txs);
      assert ha in Preimages(cr, a) && hb in Preimages(cr, b);
      assert ha == hb;
      TxHashesAt(cr, a.txs, i);
      TxHashesAt(cr, b.txs, i);
      assert SignableBytes(a.txs[i]) in Preimages(cr, a) && SignableBytes(b.txs[i]) in Preimages(cr, b);
      SignableInjective(a.txs[i], b.txs[i]);
    }
  }
}
