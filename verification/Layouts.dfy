/** Where every field lies on the wire (sections 11.2 and 11.3 of PROTOCOL.md; src/codec.c:81-345). */
module Layouts {
  import opened Words
  import opened Types
  import opened Codec

  /** Where chunk `k` starts when chunks of these widths follow each other. */
  function Offset(ws: seq<nat>, k: nat): nat
    requires k <= |ws|
  {
    if k == 0 then 0 else Offset(ws, k - 1) + ws[k - 1]
  }

  predicate Widths(cs: seq<Bytes>, ws: seq<nat>) {
    |cs| == |ws| && forall i :: 0 <= i < |ws| ==> |cs[i]| == ws[i]
  }

  lemma {:induction false} PrefixLength(cs: seq<Bytes>, ws: seq<nat>, k: nat)
    requires Widths(cs, ws) && k <= |ws|
    ensures |Join(cs[..k])| == Offset(ws, k)
  {
    hide Join;
    if k == 0 {
      assert cs[..0] == [] && Join([]) == [] by { JoinNone(); }
    } else {
      PrefixLength(cs, ws, k - 1);
      assert cs[..k] == cs[..k - 1] + [cs[k - 1]];
      JoinSnoc(cs[..k - 1], cs[k - 1]);
    }
  }

  lemma JoinNone()
    ensures Join([]) == []
  {
  }

  lemma {:induction false} PrefixIsPrefix(cs: seq<Bytes>, k: nat)
    requires k <= |cs|
    ensures Join(cs[..k]) <= Join(cs)
    decreases |cs| - k
  {
    hide Join;
    if k == |cs| {
      assert cs[..k] == cs;
    } else {
      PrefixIsPrefix(cs, k + 1);
      assert cs[..k + 1] == cs[..k] + [cs[k]];
      JoinSnoc(cs[..k], cs[k]);
    }
  }

  /** Chunk `k` lies at its offset, whatever the other chunks hold. */
  lemma ChunkAt(cs: seq<Bytes>, ws: seq<nat>, k: nat, from: nat, to: nat)
    requires Widths(cs, ws) && k < |ws| && from == Offset(ws, k) && to == from + ws[k]
    ensures to <= |Join(cs)| && Join(cs)[from..to] == cs[k]
  {
    hide Join;
    PrefixLength(cs, ws, k);
    PrefixLength(cs, ws, k + 1);
    PrefixIsPrefix(cs, k + 1);
    assert cs[..k + 1] == cs[..k] + [cs[k]];
    JoinSnoc(cs[..k], cs[k]);
    assert Join(cs)[from..to] == Join(cs[..k + 1])[from..to];
  }

  lemma HeaderOffsets()
    ensures var o := HEADER_WIDTHS;
      && Offset(o, 0) == 0 && Offset(o, 1) == 1 && Offset(o, 2) == 9 && Offset(o, 3) == 17 && Offset(o, 4) == 49
      && Offset(o, 5) == 57 && Offset(o, 6) == 89 && Offset(o, 7) == 153 && Offset(o, 8) == 185
      && Offset(o, 9) == 217 && Offset(o, 10) == 225 && Offset(o, 11) == 233 && Offset(o, 12) == 241
  {
    var o := HEADER_WIDTHS;
    assert Offset(o, 3) == 17;
    assert Offset(o, 6) == 89;
    assert Offset(o, 9) == 217;
  }

  /** The fields of an encoded header. */
  lemma HeaderLayout(h: Header)
    ensures var m := HeaderBytes(h);
      && |m| == 245 && m[0..1] == [h.version] && m[1..9] == Be64(h.height) && m[9..17] == Be64(h.slot)
      && m[17..49] == h.parentHash && m[49..57] == Be64(h.timestampMs) && m[57..89] == h.proposer
      && m[89..153] == h.vrfProof && m[153..185] == h.stateRoot && m[185..217] == h.txRoot
      && m[217..225] == Be64(h.baseFee) && m[225..233] == Be64(h.gasUsed) && m[233..241] == Be64(h.gasLimit)
      && m[241..245] == Be32(h.txCount)
  {
    hide Join, Offset, Be64, Be32;
    HeaderOffsets();
    var cs, ws := HeaderChunks(h), HEADER_WIDTHS;
    ChunkAt(cs, ws, 0, 0, 1);
    ChunkAt(cs, ws, 1, 1, 9);
    ChunkAt(cs, ws, 2, 9, 17);
    ChunkAt(cs, ws, 3, 17, 49);
    ChunkAt(cs, ws, 4, 49, 57);
    ChunkAt(cs, ws, 5, 57, 89);
    ChunkAt(cs, ws, 6, 89, 153);
    ChunkAt(cs, ws, 7, 153, 185);
    ChunkAt(cs, ws, 8, 185, 217);
    ChunkAt(cs, ws, 9, 217, 225);
    ChunkAt(cs, ws, 10, 225, 233);
    ChunkAt(cs, ws, 11, 233, 241);
    ChunkAt(cs, ws, 12, 241, 245);
  }

  lemma TxOffsets()
    ensures var o := TX_HEAD_WIDTHS;
      && Offset(o, 0) == 0 && Offset(o, 1) == 1 && Offset(o, 2) == 9 && Offset(o, 3) == 10 && Offset(o, 4) == 42
      && Offset(o, 5) == 50 && Offset(o, 6) == 54 && Offset(o, 7) == 62
  {
    var o := TX_HEAD_WIDTHS;
    assert Offset(o, 3) == 10;
    assert Offset(o, 6) == 54;
  }

  lemma TxHeadLayout(t: Tx)
    ensures var m := Join(TxHead(t));
      && |m| == 70 && m[0..1] == [t.version] && m[1..9] == Be64(t.chainId) && m[9..10] == [t.kind]
      && m[10..42] == t.sender && m[42..50] == Be64(t.nonce) && m[50..54] == Be32(t.gasLimit)
      && m[54..62] == Be64(t.tip) && m[62..70] == Be64(t.validUntil)
  {
    hide Join, Offset, Be64, Be32;
    TxOffsets();
    TxHeadLength(t);
    var cs, ws := TxHead(t), TX_HEAD_WIDTHS;
    ChunkAt(cs, ws, 0, 0, 1);
    ChunkAt(cs, ws, 1, 1, 9);
    ChunkAt(cs, ws, 2, 9, 10);
    ChunkAt(cs, ws, 3, 10, 42);
    ChunkAt(cs, ws, 4, 42, 50);
    ChunkAt(cs, ws, 5, 50, 54);
    ChunkAt(cs, ws, 6, 54, 62);
    ChunkAt(cs, ws, 7, 62, 70);
  }

  /** The fields of an encoded transaction: 70 bytes, two fields that state their length, the signature. */
  lemma TransactionLayout(t: Tx)
    ensures var m := TxBytes(t); var a := 74 + |t.body|; var b := a + 4 + |t.memo|;
      && |m| == b + 64 && m[0..1] == [t.version] && m[1..9] == Be64(t.chainId) && m[9..10] == [t.kind]
      && m[10..42] == t.sender && m[42..50] == Be64(t.nonce) && m[50..54] == Be32(t.gasLimit)
      && m[54..62] == Be64(t.tip) && m[62..70] == Be64(t.validUntil)
      && m[70..74] == Be32(|t.body|) && m[74..a] == t.body && m[a..a + 4] == Be32(|t.memo|) && m[a + 4..b] == t.memo
      && m[b..] == t.sig
  {
    hide Join, TxHead, Be64, Be32;
    TxHeadLayout(t);
    TxLayout(t, []);
    var m, h := TxBytes(t), Join(TxHead(t));
    assert m + [] == m && m[..70] == h;
    Within(m, h, 0, 1);
    Within(m, h, 1, 9);
    Within(m, h, 9, 10);
    Within(m, h, 10, 42);
    Within(m, h, 42, 50);
    Within(m, h, 50, 54);
    Within(m, h, 54, 62);
    Within(m, h, 62, 70);
  }

  lemma Within(m: Bytes, h: Bytes, from: nat, to: nat)
    requires |h| <= |m| && m[..|h|] == h && from <= to <= |h|
    ensures m[from..to] == h[from..to]
  {
    assert m[..|h|][from..to] == m[from..to];
  }

  lemma OtherOffsets()
    ensures var o := SLASH_WIDTHS;
      && Offset(o, 0) == 0 && Offset(o, 1) == 32 && Offset(o, 2) == 40 && Offset(o, 3) == 72 && Offset(o, 4) == 136
      && Offset(o, 5) == 168
    ensures var o := SIGNER_WIDTHS; Offset(o, 0) == 0 && Offset(o, 1) == 32 && Offset(o, 2) == 96
  {
    var o := SLASH_WIDTHS;
    assert Offset(o, 3) == 72;
  }

  /** The fields of equivocation evidence. */
  lemma EvidenceLayout(b: SlashBody)
    ensures var m := SlashBytes(b);
      && |m| == 232 && m[0..32] == b.validator && m[32..40] == Be64(b.height) && m[40..72] == b.hashA
      && m[72..136] == b.sigA && m[136..168] == b.hashB && m[168..232] == b.sigB
  {
    hide Join, Offset, Be64;
    OtherOffsets();
    var cs, ws := SlashChunks(b), SLASH_WIDTHS;
    ChunkAt(cs, ws, 0, 0, 32);
    ChunkAt(cs, ws, 1, 32, 40);
    ChunkAt(cs, ws, 2, 40, 72);
    ChunkAt(cs, ws, 3, 72, 136);
    ChunkAt(cs, ws, 4, 136, 168);
    ChunkAt(cs, ws, 5, 168, 232);
  }

  /** The fields of a certificate entry. */
  lemma SignerLayout(s: Signer)
    ensures var m := SignerBytes(s); |m| == 160 && m[0..32] == s.signer && m[32..96] == s.sig && m[96..160] == s.proof
  {
    hide Join, Offset;
    OtherOffsets();
    var cs, ws := SignerChunks(s), SIGNER_WIDTHS;
    ChunkAt(cs, ws, 0, 0, 32);
    ChunkAt(cs, ws, 1, 32, 96);
    ChunkAt(cs, ws, 2, 96, 160);
  }

  /** Signer `i` of an encoded list starts at byte 160 i. */
  lemma {:induction false} SignersLayout(ss: seq<Signer>, i: nat)
    requires i < |ss|
    ensures SignersBytes(ss)[160 * i..160 * i + 160] == SignerBytes(ss[i])
  {
    hide SignerBytes;
    if i > 0 {
      SignersLayout(ss[1..], i - 1);
      var m, r := SignersBytes(ss), SignersBytes(ss[1..]);
      assert m[160..] == r;
      assert m[160 * i..160 * i + 160] == m[160..][160 * (i - 1)..160 * (i - 1) + 160];
    }
  }

  /** A block: its header, its transactions one after the other, the number of signers, the signers. */
  lemma BlockLayout(b: Block)
    requires |b.signers| < W32
    ensures var m, n := BlockBytes(b), |TxsBytes(b.txs)|;
      && |m| == 249 + n + 160 * |b.signers| && m[..245] == HeaderBytes(b.header) && m[245..245 + n] == TxsBytes(b.txs)
      && m[245 + n..249 + n] == Be32(|b.signers|) && m[249 + n..] == SignersBytes(b.signers)
  {
    hide HeaderBytes, TxsBytes, SignersBytes, Be32;
  }
}
