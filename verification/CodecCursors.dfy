/** The bounded cursors of src/codec.c and the encoders and decoders that advance them. */
module CodecCursors {
  import opened Words
  import opened Types
  import opened Codec

  // ---------------------------------------------------------------------------
  // Writing
  // ---------------------------------------------------------------------------

  /** `wcur_t`: once a chunk does not fit, nothing more is written. */
  class Writer {
    const buf: array<Byte>
    var used: nat
    var err: bool
    /** Everything the encoder asked for. */
    ghost var chunks: seq<Bytes>

    ghost predicate Valid()
      reads this, buf
    {
      && used <= buf.Length
      && (err <==> |Join(chunks)| > buf.Length)
      && (!err ==> buf[..used] == Join(chunks))
    }

    constructor (cap: nat)
      ensures Valid() && chunks == [] && buf.Length == cap && fresh(buf)
    {
      buf := new Byte[cap];
      used, err, chunks := 0, false, [];
    }

    method Put(src: Bytes)
      requires Valid()
      modifies this, buf
      ensures Valid() && chunks == old(chunks) + [src]
    {
      JoinSnoc(chunks, src);
      hide Join;
      chunks := chunks + [src];
      if err || used + |src| > buf.Length {
        err := true;
        return;
      }
      ghost var before := buf[..used];
      var i := 0;
      while i < |src|
        modifies buf
        invariant i <= |src| && buf[..used] == before && buf[used..used + i] == src[..i]
      {
        buf[used + i] := src[i];
        assert buf[used..used + (i + 1)] == buf[used..used + i] + [src[i]];
        assert src[..i + 1] == src[..i] + [src[i]];
        i := i + 1;
      }
      assert src[..|src|] == src;
      assert buf[..used + |src|] == buf[..used] + buf[used..used + |src|];
      used := used + |src|;
    }

    /** The chunks of a layout, one after the other. */
    method PutAll(cs: seq<Bytes>)
      requires Valid()
      modifies this, buf
      ensures Valid() && chunks == old(chunks) + cs
    {
      hide Join;
      ghost var before := chunks;
      for i := 0 to |cs|
        invariant Valid() && chunks == before + cs[..i]
      {
        assert cs[..i + 1] == cs[..i] + [cs[i]];
        Put(cs[i]);
      }
      assert cs[..|cs|] == cs;
    }
  }

  /** What `ac_tx_encode` writes, chunk by chunk. */
  function TxChunks(t: Tx): seq<Bytes> {
    TxHead(t) + [Be32(|t.body|), t.body, Be32(|t.memo|), t.memo, t.sig]
  }

  lemma {:induction false} JoinAppend(a: seq<Bytes>, b: seq<Bytes>)
    ensures Join(a + b) == Join(a) + Join(b)
  {
    if a == [] {
      assert a + b == b;
    } else {
      JoinAppend(a[1..], b);
      assert (a + b)[1..] == a[1..] + b;
      var x, y, z := a[0], Join(a[1..]), Join(b);
      assert Join(a + b) == x + (y + z);
      hide Join;
      assert x + (y + z) == (x + y) + z;
    }
  }

  lemma JoinTail(a: Bytes, b: Bytes, c: Bytes, d: Bytes, e: Bytes)
    ensures Join([a, b, c, d, e]) == (a + b) + ((c + d) + e)
  {
    var s := [a, b, c, d, e];
    assert s[1..] == [b, c, d, e] && [b, c, d, e][1..] == [c, d, e] && [c, d, e][1..] == [d, e] && [d, e][1..] == [e];
    assert [e][1..] == [];
    assert Join([e]) == e;
    assert Join([d, e]) == d + e;
    assert Join([c, d, e]) == c + (d + e);
    assert Join([b, c, d, e]) == b + (c + (d + e));
  }

  lemma TxChunksJoin(t: Tx)
    ensures Join(TxChunks(t)) == TxBytes(t)
  {
    hide Join, Be32;
    JoinAppend(TxHead(t), [Be32(|t.body|), t.body, Be32(|t.memo|), t.memo, t.sig]);
    JoinTail(Be32(|t.body|), t.body, Be32(|t.memo|), t.memo, t.sig);
  }

  lemma {:induction false} TxsBytesSnoc(ts: seq<Tx>, t: Tx)
    ensures TxsBytes(ts + [t]) == TxsBytes(ts) + TxBytes(t)
  {
    hide TxBytes;
    if ts == [] {
      assert ([] + [t])[1..] == [];
    } else {
      TxsBytesSnoc(ts[1..], t);
      assert (ts + [t])[1..] == ts[1..] + [t];
    }
  }

  lemma {:induction false} SignersBytesSnoc(ss: seq<Signer>, s: Signer)
    ensures SignersBytes(ss + [s]) == SignersBytes(ss) + SignerBytes(s)
  {
    hide SignerBytes;
    if ss == [] {
      assert ([] + [s])[1..] == [];
    } else {
      SignersBytesSnoc(ss[1..], s);
      assert (ss + [s])[1..] == ss[1..] + [s];
    }
  }

  lemma {:induction false} TxsBytesFit(ts: seq<Tx>)
    ensures |TxsBytes(ts)| <= TX_MAX_BYTES * |ts|
  {
    hide TxBytes;
    if ts != [] {
      TxsBytesFit(ts[1..]);
    }
  }

  method PutTxs(w: Writer, ts: seq<Tx>)
    requires w.Valid()
    modifies w, w.buf
    ensures w.Valid() && Join(w.chunks) == old(Join(w.chunks)) + TxsBytes(ts)
  {
    hide Join, TxBytes, TxChunks;
    ghost var before := Join(w.chunks);
    var i := 0;
    assert before + TxsBytes([]) == before;
    while i < |ts|
      invariant i <= |ts| && w.Valid() && Join(w.chunks) == before + TxsBytes(ts[..i])
    {
      JoinAppend(w.chunks, TxChunks(ts[i]));
      TxChunksJoin(ts[i]);
      TxsBytesSnoc(ts[..i], ts[i]);
      assert ts[..i + 1] == ts[..i] + [ts[i]];
      w.PutAll(TxChunks(ts[i]));
      i := i + 1;
    }
    assert ts[..|ts|] == ts;
  }

  method PutSigners(w: Writer, ss: seq<Signer>)
    requires w.Valid()
    modifies w, w.buf
    ensures w.Valid() && Join(w.chunks) == old(Join(w.chunks)) + SignersBytes(ss)
  {
    hide Join, SignerChunks;
    ghost var before := Join(w.chunks);
    var i := 0;
    assert before + SignersBytes([]) == before;
    while i < |ss|
      invariant i <= |ss| && w.Valid() && Join(w.chunks) == before + SignersBytes(ss[..i])
    {
      JoinAppend(w.chunks, SignerChunks(ss[i]));
      SignersBytesSnoc(ss[..i], ss[i]);
      assert ss[..i + 1] == ss[..i] + [ss[i]];
      w.PutAll(SignerChunks(ss[i]));
      i := i + 1;
    }
    assert ss[..|ss|] == ss;
  }

  /** `ac_block_encode`: the buffer is always large enough, so encoding never fails. */
  method EncodeBlock(b: Block) returns (buf: array<Byte>, n: nat)
    requires |b.signers| < W32
    ensures n <= buf.Length && buf[..n] == BlockBytes(b) && fresh(buf)
  {
    hide Join, HeaderChunks, TxsBytes, SignersBytes, Be32;
    var upper := 256 + |b.txs| * TX_MAX_BYTES + 4 + |b.signers| * 160;
    var w := new Writer(upper);
    NothingJoined();
    JoinAppend([], HeaderChunks(b.header));
    w.PutAll(HeaderChunks(b.header));
    assert [] + HeaderChunks(b.header) == HeaderChunks(b.header);
    PutTxs(w, b.txs);
    JoinSnoc(w.chunks, Be32(|b.signers|));
    w.Put(Be32(|b.signers|));
    PutSigners(w, b.signers);
    TxsBytesFit(b.txs);
    assert Join(w.chunks) == BlockBytes(b);
    return w.buf, w.used;
  }

  lemma NothingJoined()
    ensures Join([]) == []
  {
  }

  // ---------------------------------------------------------------------------
  // Reading
  // ---------------------------------------------------------------------------

  /** `rcur_t`: once a read does not fit, nothing more is read. */
  class Reader {
    const buf: Bytes
    var pos: nat
    var err: bool

    ghost predicate Valid()
      reads this
    {
      pos <= |buf|
    }

    constructor (bytes: Bytes, from: nat)
      requires from <= |bytes|
      ensures Valid() && buf == bytes && pos == from && !err
    {
      buf, pos, err := bytes, from, false;
    }

    /** `n` bytes, or zeros when they are not there. */
    method Get(n: nat) returns (x: Bytes)
      requires Valid()
      modifies this
      ensures Valid() && |x| == n
      ensures err == (old(err) || old(pos) + n > |buf|)
      ensures !err ==> pos == old(pos) + n && x == buf[old(pos)..pos]
    {
      if err || pos + n > |buf| {
        err := true;
        x := [];
        while |x| < n
          invariant |x| <= n
        {
          x := x + [0];
        }
        return;
      }
      x := buf[pos..pos + n];
      pos := pos + n;
    }
  }

  /** The slices a fixed layout cuts out of a buffer. */
  ghost predicate SlicedBy(cs: seq<Bytes>, buf: Bytes, ws: seq<nat>) {
    |cs| == |ws| && (forall i :: 0 <= i < |ws| ==> |cs[i]| == ws[i]) && Join(cs) <= buf
  }

  lemma SlicesAreCut(cs: seq<Bytes>, buf: Bytes, ws: seq<nat>)
    requires SlicedBy(cs, buf, ws)
    ensures Sum(ws) <= |buf| && Cut(buf, ws) == cs
  {
    hide Cut, Join, Sum;
    var n := |Join(cs)|;
    CutJoin(cs, ws, buf[n..]);
    assert Join(cs) + buf[n..] == buf;
  }

  /** Reads the fields of a layout one after the other. */
  method GetAll(r: Reader, ws: seq<nat>) returns (cs: seq<Bytes>)
    requires r.Valid()
    modifies r
    ensures r.Valid() && |cs| == |ws| && forall i :: 0 <= i < |ws| ==> |cs[i]| == ws[i]
    ensures r.err <==> old(r.err) || old(r.pos) + Sum(ws) > |r.buf|
    ensures !r.err ==> r.pos == old(r.pos) + Sum(ws) && SlicedBy(cs, r.buf[old(r.pos)..], ws)
  {
    hide Join, Sum;
    ghost var start, failed := r.pos, r.err;
    cs := [];
    NothingJoined();
    SumOfNone();
    for i := 0 to |ws|
      invariant r.Valid() && |cs| == i && forall j :: 0 <= j < i ==> |cs[j]| == ws[j]
      invariant r.err <==> failed || start + Sum(ws[..i]) > |r.buf|
      invariant !r.err ==> r.pos == start + Sum(ws[..i]) && Join(cs) == r.buf[start..r.pos]
    {
      assert ws[..i + 1] == ws[..i] + [ws[i]];
      SumSnoc(ws[..i], ws[i]);
      ghost var at := r.pos;
      var x := r.Get(ws[i]);
      if !r.err {
        JoinSnoc(cs, x);
        assert r.buf[start..r.pos] == r.buf[start..at] + r.buf[at..r.pos];
      }
      cs := cs + [x];
    }
    assert ws[..|ws|] == ws;
  }

  lemma SumOfNone()
    ensures Sum([]) == 0
  {
  }

  lemma {:induction false} SumSnoc(ws: seq<nat>, w: nat)
    ensures Sum(ws + [w]) == Sum(ws) + w
  {
    if ws == [] {
      assert ([] + [w])[1..] == [];
    } else {
      SumSnoc(ws[1..], w);
      assert (ws + [w])[1..] == ws[1..] + [w];
    }
  }

  /** `ac_block_header_decode` */
  method GetHeader(r: Reader) returns (h: Option<Header>)
    requires r.Valid() && !r.err
    modifies r
    ensures r.Valid() && h == ParseHeader(r.buf[old(r.pos)..])
    ensures h.Some? ==> !r.err && r.pos == old(r.pos) + HEADER_BYTES
  {
    hide Sum, Cut, Join;
    LayoutSums();
    ghost var rest := r.buf[r.pos..];
    var cs := GetAll(r, HEADER_WIDTHS);
    if r.err {
      return None;
    }
    SlicesAreCut(cs, rest, HEADER_WIDTHS);
    return Some(HeaderOf(cs));
  }

  /** `ac_tx_decode`: the buffer must hold one transaction and nothing else. */
  method DecodeTx(buf: Bytes) returns (t: Option<Tx>)
    ensures t == ParseTx(buf)
  {
    hide Sum, Cut, Join, Rd32;
    LayoutSums();
    if |buf| > TX_MAX_BYTES { return None; }
    var r := new Reader(buf, 0);
    var head := GetAll(r, TX_HEAD_WIDTHS);
    var len := r.Get(4);
    if r.err { return None; }
    assert buf[0..] == buf;
    SlicesAreCut(head, buf, TX_HEAD_WIDTHS);
    var bodyLen := Rd32(len);
    if bodyLen > BODY_MAX { return None; }
    var body := r.Get(bodyLen);
    len := r.Get(4);
    if r.err { return None; }
    var memoLen := Rd32(len);
    if memoLen > MEMO_MAX { return None; }
    var memo := r.Get(memoLen);
    var sig := r.Get(64);
    if r.err || r.pos != |buf| { return None; }
    var m := 74 + bodyLen;
    assert body == buf[74..m] && memo == buf[m + 4..m + 4 + memoLen] && sig == buf[|buf| - 64..];
    return Some(TxOf(head, body, memo, sig));
  }

  /** The length walker of `ac_block_decode`, then the transaction in its window. */
  method GetTx(r: Reader) returns (t: Option<Tx>)
    requires r.Valid() && !r.err
    modifies r
    ensures r.Valid() && !r.err
    ensures var rest := r.buf[old(r.pos)..];
      match TxWindow(rest)
      case None => t.None?
      case Some(w) => t == ParseTx(rest[..w]) && (t.Some? ==> r.pos == old(r.pos) + w)
  {
    hide ParseTx, Rd32;
    var p := r.buf[r.pos..];
    if |p| < 74 { return None; }
    var bodyLen := Rd32(p[70..74]);
    if bodyLen > BODY_MAX { return None; }
    var pos := 74 + bodyLen;
    if |p| < pos + 4 { return None; }
    var memoLen := Rd32(p[pos..pos + 4]);
    if memoLen > MEMO_MAX { return None; }
    pos := pos + 4 + memoLen + 64;
    if |p| < pos { return None; }
    t := DecodeTx(p[..pos]);
    if t.Some? {
      r.pos := r.pos + pos;
    }
  }

  lemma {:induction false} ParseTxsStep(done: seq<Tx>, buf: Bytes, n: nat)
    requires n > 0
    ensures var w := TxWindow(buf);
      if w.None? || ParseTx(buf[..w.value]).None? then
        ParseTxs(buf, n).None?
      else
        var t := ParseTx(buf[..w.value]).value;
        Prefixed(done, ParseTxs(buf, n)) == Prefixed(done + [t], ParseTxs(buf[w.value..], n - 1))
  {
    hide ParseTx, TxWindow;
    var w := TxWindow(buf);
    if w.Some? && ParseTx(buf[..w.value]).Some? {
      var t, tail := ParseTx(buf[..w.value]).value, ParseTxs(buf[w.value..], n - 1);
      if tail.Some? {
        assert done + ([t] + tail.value.0) == done + [t] + tail.value.0;
      }
    }
  }

  /** A parse result with what was read before it. */
  function Prefixed<T>(done: seq<T>, r: Option<(seq<T>, Bytes)>): Option<(seq<T>, Bytes)> {
    match r
    case None => None
    case Some((ts, rest)) => Some((done + ts, rest))
  }

  lemma PrefixedByNone<T>(r: Option<(seq<T>, Bytes)>)
    ensures Prefixed([], r) == r
  {
    if r.Some? {
      assert [] + r.value.0 == r.value.0;
    }
  }

  method GetTxs(r: Reader, n: nat) returns (ts: Option<seq<Tx>>)
    requires r.Valid() && !r.err
    modifies r
    ensures r.Valid() && !r.err
    ensures var p := ParseTxs(r.buf[old(r.pos)..], n);
      ts.Some? == p.Some? && (p.Some? ==> p.value == (ts.value, r.buf[r.pos..]))
  {
    hide ParseTx, TxWindow;
    ghost var whole := r.buf[r.pos..];
    var done: seq<Tx>, i := [], 0;
    PrefixedByNone(ParseTxs(whole, n));
    while i < n
      invariant i <= n && r.Valid() && !r.err
      invariant Prefixed(done, ParseTxs(r.buf[r.pos..], n - i)) == ParseTxs(whole, n)
    {
      ghost var rest := r.buf[r.pos..];
      ParseTxsStep(done, rest, n - i);
      var t := GetTx(r);
      if t.None? {
        return None;
      }
      assert r.buf[r.pos..] == rest[TxWindow(rest).value..];
      done := done + [t.value];
      i := i + 1;
    }
    assert done + [] == done;
    return Some(done);
  }

  lemma {:induction false} ParseSignersStep(done: seq<Signer>, buf: Bytes, n: nat)
    requires n > 0 && |buf| >= 160
    ensures Prefixed(done, ParseSigners(buf, n)) == Prefixed(done + [ParseSigner(buf)], ParseSigners(buf[160..], n - 1))
  {
    hide ParseSigner;
    var tail := ParseSigners(buf[160..], n - 1);
    if tail.Some? {
      assert done + ([ParseSigner(buf)] + tail.value.0) == done + [ParseSigner(buf)] + tail.value.0;
    }
  }

  /** Reads all entries before it looks at the error flag. */
  method GetSigners(r: Reader, n: nat) returns (ss: seq<Signer>)
    requires r.Valid() && !r.err
    modifies r
    ensures r.Valid()
    ensures var p := ParseSigners(r.buf[old(r.pos)..], n);
      !r.err == p.Some? && (p.Some? ==> p.value == (ss, r.buf[r.pos..]))
  {
    hide Sum, Cut, Join;
    LayoutSums();
    ghost var whole := r.buf[r.pos..];
    ss := [];
    var i := 0;
    PrefixedByNone(ParseSigners(whole, n));
    while i < n
      invariant i <= n && r.Valid()
      invariant r.err ==> ParseSigners(whole, n).None?
      invariant !r.err ==> Prefixed(ss, ParseSigners(r.buf[r.pos..], n - i)) == ParseSigners(whole, n)
    {
      ghost var rest := r.buf[r.pos..];
      var cs := GetAll(r, SIGNER_WIDTHS);
      if !r.err {
        SlicesAreCut(cs, rest, SIGNER_WIDTHS);
        ParseSignersStep(ss, rest, n - i);
        assert r.buf[r.pos..] == rest[160..];
      }
      ss := ss + [Signer(cs[0], cs[1], cs[2])];
      i := i + 1;
    }
    assert ss + [] == ss;
  }

  /** `ac_block_decode`: the block and how many bytes it took. */
  method DecodeBlock(buf: Bytes) returns (r: Option<(Block, nat)>)
    ensures match ParseBlock(buf)
      case None => r.None?
      case Some((b, rest)) => r.Some? && r.value.0 == b && r.value.1 <= |buf| && buf[r.value.1..] == rest
  {
    hide ParseHeader, ParseTxs, ParseSigners, Rd32;
    if |buf| < 156 {
      ShortHasNoHeader(buf);
      return None;
    }
    var c := new Reader(buf, 0);
    assert buf[0..] == buf;
    var h := GetHeader(c);
    if h.None? || h.value.txCount > BLOCK_MAX_TXS {
      return None;
    }
    var txs := GetTxs(c, h.value.txCount);
    if txs.None? || |buf| - c.pos < 4 {
      return None;
    }
    ghost var tail := buf[c.pos..];
    var len := c.Get(4);
    assert tail[..4] == len && tail[4..] == buf[c.pos..];
    var n := Rd32(len);
    if n > COMMITTEE_MAX {
      return None;
    }
    var signers := GetSigners(c, n);
    if c.err {
      return None;
    }
    return Some((Block(h.value, txs.value, signers), c.pos));
  }

  lemma ShortHasNoHeader(buf: Bytes)
    requires |buf| < 156
    ensures ParseHeader(buf).None?
  {
  }
}
