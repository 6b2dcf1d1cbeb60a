/**
 Machine words, byte strings and big-endian integers (src/common.h).

 Words are subset types of `int`; every place where the C code may wrap says so
 with an explicit `% W64`.
 */
module Words {
  const W32 := 0x1_0000_0000
  const W64 := 0x1_0000_0000_0000_0000

  type Byte = b: int | 0 <= b < 256
  type U32 = x: int | 0 <= x < W32
  type U64 = x: int | 0 <= x < W64
  type Bytes = seq<Byte>

  /** An Ed25519 public key; also the account address. */
  type Addr = a: Bytes | |a| == 32 witness seq(32, _ => 0)
  type Hash = h: Bytes | |h| == 32 witness seq(32, _ => 0)
  /** A signature, or a VRF proof (which is a signature). */
  type Sig = s: Bytes | |s| == 64 witness seq(64, _ => 0)

  datatype Option<+T> = None | Some(value: T)

  const ZERO8: Bytes := [0, 0, 0, 0, 0, 0, 0, 0]
  const ZERO_HASH: Hash := ZERO8 + ZERO8 + ZERO8 + ZERO8
  const ZERO_SIG: Sig := ZERO_HASH + ZERO_HASH

  lemma MulMonotone(a: int, b: int, c: nat)
    requires a <= b
    ensures a * c <= b * c
  {
  }

  lemma Distribute(a: int, b: int, c: int)
    ensures (a + b) * c == a * c + b * c
  {
  }

  lemma ModAdd(x: nat, y: nat)
    ensures (x % W64 + y) % W64 == (x + y) % W64
  {
  }

  lemma QuotientAtMost(a: nat, d: nat, k: nat)
    requires d > 0 && a <= k * d
    ensures a / d <= k
  {
    var q := a / d;
    assert q * d <= a;
    if q > k {
      MulMonotone(k + 1, q, d);
    }
  }

  lemma QuotientAtLeast(x: nat, d: nat, k: nat)
    requires d > 0 && k * d <= x
    ensures x / d >= k
  {
    var q := x / d;
    assert x < q * d + d;
    if q < k {
      MulMonotone(q + 1, k, d);
      Distribute(q, 1, d);
    }
  }

  lemma QuotientBelow(x: nat, d: nat, k: nat)
    requires d > 0 && x < k * d
    ensures x / d < k
  {
    var q := x / d;
    assert q * d <= x;
    if k <= q {
      MulMonotone(k, q, d);
    }
  }

  // ---------------------------------------------------------------------------
  // Big-endian integers
  // ---------------------------------------------------------------------------

  function Pow256(n: nat): (r: nat)
    ensures r >= 1
  {
    if n == 0 then 1 else 256 * Pow256(n - 1)
  }

  lemma Pow256Words()
    ensures Pow256(1) == 256 && Pow256(4) == W32 && Pow256(8) == W64
  {
    assert Pow256(2) == 0x1_0000;
    assert Pow256(4) == 256 * (256 * Pow256(2));
    assert Pow256(6) == 256 * (256 * Pow256(4));
    assert Pow256(8) == 256 * (256 * Pow256(6));
  }

  /** The `n` low bytes of `v`, most significant first. */
  function BE(v: nat, n: nat): (r: Bytes)
    ensures |r| == n
  {
    if n == 0 then [] else BE(v / 256, n - 1) + [v % 256]
  }

  /** The number a byte string spells, most significant byte first. */
  function Val(s: Bytes): nat {
    if s == [] then 0 else Val(s[..|s| - 1]) * 256 + s[|s| - 1]
  }

  lemma {:induction false} ValBound(s: Bytes)
    ensures Val(s) < Pow256(|s|)
  {
    if s != [] {
      ValBound(s[..|s| - 1]);
    }
  }

  /** Writing a word and reading it back gives the word. */
  lemma {:induction false} ValBE(v: nat, n: nat)
    requires v < Pow256(n)
    ensures Val(BE(v, n)) == v
  {
    if n > 0 {
      ValBE(v / 256, n - 1);
      assert BE(v, n)[..n - 1] == BE(v / 256, n - 1);
    }
  }

  /** Reading a byte string and writing the word back gives the byte string. */
  lemma {:induction false} BEVal(s: Bytes)
    ensures BE(Val(s), |s|) == s
  {
    if s != [] {
      BEVal(s[..|s| - 1]);
      assert s == s[..|s| - 1] + [s[|s| - 1]];
    }
  }

  function Be32(v: U32): (r: Bytes)
    ensures |r| == 4
  {
    BE(v, 4)
  }

  function Be64(v: U64): (r: Bytes)
    ensures |r| == 8
  {
    BE(v, 8)
  }

  function Rd32(s: Bytes): (v: U32)
    requires |s| == 4
    ensures Be32(v) == s
  {
    ValBound(s);
    Pow256Words();
    BEVal(s);
    Val(s)
  }

  function Rd64(s: Bytes): (v: U64)
    requires |s| == 8
    ensures Be64(v) == s
  {
    ValBound(s);
    Pow256Words();
    BEVal(s);
    Val(s)
  }

  lemma Rd32Be32(v: U32)
    ensures Rd32(Be32(v)) == v
  {
    Pow256Words();
    ValBE(v, 4);
  }

  lemma Rd64Be64(v: U64)
    ensures Rd64(Be64(v)) == v
  {
    Pow256Words();
    ValBE(v, 8);
  }

  // ---------------------------------------------------------------------------
  // Byte order: memcmp on equal lengths, name_cmp otherwise
  // ---------------------------------------------------------------------------

  /** Lexicographic order on byte strings; a proper prefix comes first. */
  predicate Less(a: Bytes, b: Bytes) {
    if b == [] then false
    else if a == [] then true
    else if a[0] != b[0] then a[0] < b[0]
    else Less(a[1..], b[1..])
  }

  lemma {:induction false} LessIrreflexive(a: Bytes)
    ensures !Less(a, a)
  {
    if a != [] {
      LessIrreflexive(a[1..]);
    }
  }

  lemma {:induction false} LessTransitive(a: Bytes, b: Bytes, c: Bytes)
    requires Less(a, b) && Less(b, c)
    ensures Less(a, c)
  {
    if a != [] && a[0] == b[0] == c[0] {
      LessTransitive(a[1..], b[1..], c[1..]);
    }
  }

  lemma {:induction false} LessTotal(a: Bytes, b: Bytes)
    ensures a == b || Less(a, b) || Less(b, a)
  {
    if a != [] && b != [] && a[0] == b[0] {
      LessTotal(a[1..], b[1..]);
      assert a == [a[0]] + a[1..] && b == [b[0]] + b[1..];
    }
  }

  lemma LessAsymmetric(a: Bytes, b: Bytes)
    requires Less(a, b)
    ensures !Less(b, a) && a != b
  {
    LessIrreflexive(a);
    if Less(b, a) {
      LessTransitive(a, b, a);
    }
  }

  lemma {:induction false} ValHead(s: Bytes)
    requires s != []
    ensures Val(s) == s[0] * Pow256(|s| - 1) + Val(s[1..])
  {
    if |s| > 1 {
      var init := s[..|s| - 1];
      ValHead(init);
      assert s[1..][..|s| - 2] == init[1..];
      assert Pow256(|s| - 1) == 256 * Pow256(|s| - 2);
      ShiftDigits(s[0], Pow256(|s| - 2), Val(init[1..]));
    }
  }

  lemma ShiftDigits(d: nat, p: nat, v: nat)
    ensures (d * p + v) * 256 == d * (256 * p) + v * 256
  {
  }

  lemma LeadingDigitDecides(x: nat, y: nat, p: nat, u: nat, v: nat)
    requires x < y && u < p
    ensures x * p + u < y * p + v
  {
    assert (x + 1) * p <= y * p;
  }

  /** On strings of one length, byte order is numeric order (src/consensus.c:326-329). */
  lemma {:induction false} LessIsNumeric(a: Bytes, b: Bytes)
    requires |a| == |b|
    ensures Less(a, b) <==> Val(a) < Val(b)
  {
    if a != [] {
      ValHead(a);
      ValHead(b);
      ValBound(a[1..]);
      ValBound(b[1..]);
      if a[0] < b[0] {
        LeadingDigitDecides(a[0], b[0], Pow256(|a| - 1), Val(a[1..]), Val(b[1..]));
      } else if b[0] < a[0] {
        LeadingDigitDecides(b[0], a[0], Pow256(|a| - 1), Val(b[1..]), Val(a[1..]));
      } else {
        LessIsNumeric(a[1..], b[1..]);
      }
    }
  }

  // ---------------------------------------------------------------------------
  // Cutting and joining chunks: the shape of every fixed layout
  // ---------------------------------------------------------------------------

  function Join(cs: seq<Bytes>): Bytes {
    if cs == [] then [] else cs[0] + Join(cs[1..])
  }

  function Sum(ws: seq<nat>): nat {
    if ws == [] then 0 else ws[0] + Sum(ws[1..])
  }

  /** Consecutive chunks of `buf` with the given widths. */
  function Cut(buf: Bytes, ws: seq<nat>): (cs: seq<Bytes>)
    requires Sum(ws) <= |buf|
    ensures |cs| == |ws| && forall i :: 0 <= i < |ws| ==> |cs[i]| == ws[i]
    decreases ws
  {
    if ws == [] then [] else [buf[..ws[0]]] + Cut(buf[ws[0]..], ws[1..])
  }

  lemma {:induction false} JoinSnoc(cs: seq<Bytes>, c: Bytes)
    ensures Join(cs + [c]) == Join(cs) + c
  {
    if cs == [] {
      assert [c][1..] == [];
    } else {
      JoinSnoc(cs[1..], c);
      assert (cs + [c])[1..] == cs[1..] + [c];
    }
  }

  lemma {:induction false} JoinLength(cs: seq<Bytes>, ws: seq<nat>)
    requires |cs| == |ws| && forall i :: 0 <= i < |ws| ==> |cs[i]| == ws[i]
    ensures |Join(cs)| == Sum(ws)
  {
    if cs != [] {
      JoinLength(cs[1..], ws[1..]);
    }
  }

  /** Cutting a joined list of chunks gives the chunks back, whatever follows. */
  lemma {:induction false} CutJoin(cs: seq<Bytes>, ws: seq<nat>, rest: Bytes)
    requires |cs| == |ws| && forall i :: 0 <= i < |ws| ==> |cs[i]| == ws[i]
    ensures Sum(ws) <= |Join(cs) + rest| && Cut(Join(cs) + rest, ws) == cs
  {
    JoinLength(cs, ws);
    if cs != [] {
      CutJoin(cs[1..], ws[1..], rest);
      var buf := Join(cs) + rest;
      assert buf == cs[0] + (Join(cs[1..]) + rest);
      assert buf[..ws[0]] == cs[0] && buf[ws[0]..] == Join(cs[1..]) + rest;
    }
  }

  /** Joining the chunks cut from a buffer gives the cut part back. */
  lemma {:induction false} JoinCut(buf: Bytes, ws: seq<nat>)
    requires Sum(ws) <= |buf|
    ensures Join(Cut(buf, ws)) == buf[..Sum(ws)]
    decreases ws
  {
    if ws != [] {
      JoinCut(buf[ws[0]..], ws[1..]);
      assert Cut(buf, ws)[1..] == Cut(buf[ws[0]..], ws[1..]);
      assert buf[..Sum(ws)] == buf[..ws[0]] + buf[ws[0]..][..Sum(ws[1..])];
    }
  }
}
