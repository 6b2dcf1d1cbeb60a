/** What the signed and hashed strings bind, and that no two purposes share one (section 3 of PROTOCOL.md). */
module Domains {
  import opened Words
  import opened Types
  import opened Codec
  import opened Snapshots
  import opened Quorum
  import opened Chains

  /** The input of every proof. */
  function ProofInput(alpha: Bytes): Bytes {
    Ascii("AGCH:VRF:v1") + alpha
  }

  /** A draw input determines its purpose, the seed and the slot. */
  lemma DrawsBind(s: Hash, t: U64, u: Hash, v: U64)
    ensures LeaderAlpha(s, t) == LeaderAlpha(u, v) <==> s == u && t == v
    ensures CommitteeAlpha(s, t) == CommitteeAlpha(u, v) <==> s == u && t == v
    ensures LeaderAlpha(s, t) != CommitteeAlpha(u, v)
  {
    hide Be64, Ascii;
    Rd64Be64(t);
    Rd64Be64(v);
    var a, b := LeaderAlpha(s, t), LeaderAlpha(u, v);
    assert a[11..43] == s && a[43..] == Be64(t) && b[11..43] == u && b[43..] == Be64(v);
    var c, d := CommitteeAlpha(s, t), CommitteeAlpha(u, v);
    assert c[14..46] == s && c[46..] == Be64(t) && d[14..46] == u && d[46..] == Be64(v);
    assert |a| == 51 && |d| == 54;
  }

  /** No proof input and no transaction hash is a vote message. */
  lemma VotesAreApart(height: U64, block: Hash, alpha: Bytes, hash: Hash)
    ensures VoteMessage(height, block) != ProofInput(alpha) && VoteMessage(height, block) != hash
  {
    hide Be64;
    assert VoteMessage(height, block)[6] == 79 && ProofInput(alpha)[6] == 82;
    VoteMessageBinds(height, block, height, block);
  }

  /** Proofs of the two draws and of different slots never stand for each other. */
  lemma ProofInputsBind(a: Bytes, b: Bytes)
    ensures ProofInput(a) == ProofInput(b) <==> a == b
  {
    hide Ascii;
    assert ProofInput(a)[11..] == a && ProofInput(b)[11..] == b;
  }

  function GenesisInput(chainId: U64, genesisMs: U64): Bytes {
    Ascii("AGCH:GENESIS:v1") + (Be64(chainId) + Be64(genesisMs))
  }

  /** The genesis seed is the hash of both parameters of the network. */
  lemma GenesisSeedBinds(cr: Crypto, chainId: U64, ms: U64, other: U64, time: U64)
    requires NoCollision(cr, {GenesisInput(chainId, ms), GenesisInput(other, time)})
    ensures GenesisSeed(cr, chainId, ms) == GenesisSeed(cr, other, time) <==> chainId == other && ms == time
  {
    hide Be64, Ascii;
    Rd64Be64(chainId);
    Rd64Be64(ms);
    Rd64Be64(other);
    Rd64Be64(time);
    var a, b := GenesisInput(chainId, ms), GenesisInput(other, time);
    assert a[15..23] == Be64(chainId) && a[23..] == Be64(ms) && b[15..23] == Be64(other) && b[23..] == Be64(time);
  }

  /** Two characters of the tag tell the tagged hash inputs apart. */
  function Purpose(m: Bytes): (int, int) {
    if |m| < 7 then (0, 0) else (m[5], m[6])
  }

  /** Transactions, blocks, states, proofs, priorities and both kinds of seed are hashed under different tags. */
  lemma HashInputsAreApart(tx: Tx, h: Header, t: Tables, proof: Sig, beta: Hash, leader: Sig, chainId: U64, ms: U64)
    ensures Purpose(SignableBytes(tx)) == (84, 88)
    ensures Purpose(BlockPreimage(h)) == (66, 76)
    ensures Purpose(RootInput(t)) == (83, 84)
    ensures Purpose(Ascii("AGCH:VRF-OUT:v1") + proof) == (86, 82)
    ensures Purpose(Ascii("AGCH:PRIO") + beta) == (80, 82)
    ensures Purpose(Ascii("AGCH:SEED") + leader) == (83, 69)
    ensures Purpose(GenesisInput(chainId, ms)) == (71, 69)
  {
    hide HeaderBytes, AccountsBytes, NamesBytes, Be64, TxHead, Join, VarBytes;
  }
}
