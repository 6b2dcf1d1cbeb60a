/**
 Records and constants shared by every component (src/codec.h, src/crypto.h).
 */
module Types {
  import opened Words

  const TX_VERSION := 1
  const BLOCK_VERSION := 1
  const MEMO_MAX := 512
  const BODY_MAX := 512
  const TX_MAX_BYTES := 2048
  const BLOCK_MAX_TXS := 4096
  const BLOCK_GAS_LIMIT := 30_000_000
  const MIN_BASE_FEE := 1
  const NAME_MAX_LEN := 32
  const COMMITTEE_MAX := 256
  const SLOT_MS := 2000
  const EPOCH_SLOTS := 7200
  const MIN_STAKE := 100_000_000
  const NAME_FEE := 1_000_000

  const TRANSFER := 1
  const STAKE_BOND := 2
  const STAKE_UNBOND := 3
  const REGISTER_NAME := 4
  const SLASH_EVIDENCE := 5

  /** The reward-pool account "RWDP" (src/chain.c:436). */
  const REWARD_POOL: Addr := [0x52, 0x57, 0x44, 0x50, 0, 0, 0, 0] + ZERO8 + ZERO8 + ZERO8

  datatype RawTx = Tx(
    version: Byte, chainId: U64, kind: Byte, sender: Addr, nonce: U64, gasLimit: U32,
    tip: U64, validUntil: U64, body: Bytes, memo: Bytes, sig: Sig)

  /** A transaction that fits the fixed `body` and `memo` arrays of `ac_tx_t`. */
  type Tx = t: RawTx | |t.body| <= BODY_MAX && |t.memo| <= MEMO_MAX
    witness RawTx.Tx(0, 0, 0, ZERO_HASH, 0, 0, 0, 0, [], [], ZERO_SIG)

  datatype Header = Header(
    version: Byte, height: U64, slot: U64, parentHash: Hash, timestampMs: U64, proposer: Addr,
    vrfProof: Sig, stateRoot: Hash, txRoot: Hash, baseFee: U64, gasUsed: U64, gasLimit: U64,
    txCount: U32)

  /** One entry of a commit certificate. */
  datatype Signer = Signer(signer: Addr, sig: Sig, proof: Sig)

  datatype Block = Block(header: Header, txs: seq<Tx>, signers: seq<Signer>)

  /** The limits every block that came through the decoder meets (src/codec.c:356-403). */
  predicate Wire(b: Block) {
    |b.txs| <= BLOCK_MAX_TXS && |b.signers| <= COMMITTEE_MAX && b.header.txCount == |b.txs|
  }

  datatype KeyPair = KeyPair(pk: Addr, sk: Bytes)

  /**
   The foreign primitives, as arbitrary deterministic functions: BLAKE2b, Ed25519 verification
   and signing, and the two floating-point draws `eligible(draw, weight, total)` for the committee
   and `leads(draw, validators)` for the leader.
   */
  datatype Crypto = Crypto(
    hash: Bytes -> Hash,
    verify: (Sig, Bytes, Addr) -> bool,
    sign: (Bytes, Bytes) -> Sig,
    eligible: (nat, nat, nat) -> bool,
    leads: (nat, nat) -> bool)

  function Ascii(s: string): (r: Bytes)
    ensures |r| == |s|
  {
    seq(|s|, i requires 0 <= i < |s| => (s[i] as int) % 256)
  }

  /** A VRF proof is a signature over the tagged input (src/crypto.c:124-149). */
  predicate VrfVerify(cr: Crypto, proof: Sig, alpha: Bytes, pk: Addr) {
    cr.verify(proof, Ascii("AGCH:VRF:v1") + alpha, pk)
  }

  function VrfProve(cr: Crypto, alpha: Bytes, kp: KeyPair): Sig {
    cr.sign(kp.sk, Ascii("AGCH:VRF:v1") + alpha)
  }

  function VrfOut(cr: Crypto, proof: Sig): Hash {
    cr.hash(Ascii("AGCH:VRF-OUT:v1") + proof)
  }

  /** The first eight bytes of the VRF output, the committee draw. */
  function Draw(cr: Crypto, proof: Sig): U64 {
    Rd64(VrfOut(cr, proof)[..8])
  }

  /** No two different strings of `xs` hash alike. */
  ghost predicate NoCollision(cr: Crypto, xs: set<Bytes>) {
    forall x, y :: x in xs && y in xs && cr.hash(x) == cr.hash(y) ==> x == y
  }
}
