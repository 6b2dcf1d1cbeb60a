/** The transaction index: appended unsorted, sorted on demand, searched in halves (src/chain.c:190-235). */
module TxIndex {
  import opened Words
  import opened Chains

  predicate ByHash(s: seq<TxEntry>) {
    forall i, j :: 0 <= i < j < |s| ==> !Less(s[j].hash, s[i].hash)
  }

  /** Before the first entry with a larger hash. */
  function Place(s: seq<TxEntry>, e: TxEntry): (p: nat)
    ensures p <= |s|
    ensures forall i :: 0 <= i < p ==> !Less(e.hash, s[i].hash)
    ensures p < |s| ==> Less(e.hash, s[p].hash)
  {
    if s == [] || Less(e.hash, s[0].hash) then 0 else 1 + Place(s[1..], e)
  }

  lemma NotLessTransitive(a: Bytes, b: Bytes, c: Bytes)
    requires !Less(b, a) && !Less(c, b)
    ensures !Less(c, a)
  {
    if Less(c, a) {
      LessTotal(a, b);
      if Less(a, b) {
        LessTransitive(c, a, b);
      }
    }
  }

  lemma PlaceKeepsOrder(s: seq<TxEntry>, e: TxEntry)
    requires ByHash(s)
    ensures var p := Place(s, e); ByHash(s[..p] + [e] + s[p..])
  {
    var p := Place(s, e);
    var r := s[..p] + [e] + s[p..];
    hide Place, Less;
    assert forall k :: 0 <= k < |r| ==> r[k] == if k < p then s[k] else if k == p then e else s[k - 1];
    forall j | p <= j < |s| ensures !Less(s[j].hash, e.hash) {
      LessAsymmetric(e.hash, s[p].hash);
      if j > p {
        NotLessTransitive(e.hash, s[p].hash, s[j].hash);
      }
    }
  }

  class Index {
    var rows: seq<TxEntry>
    var sorted: bool
    /** Everything ever added, in order. */
    ghost var log: seq<TxEntry>

    ghost predicate Valid()
      reads this
    {
      multiset(rows) == multiset(log) && (sorted ==> ByHash(rows))
    }

    constructor ()
      ensures Valid() && log == [] && rows == []
    {
      rows, sorted, log := [], false, [];
    }

    method Add(e: TxEntry)
      requires Valid()
      modifies this
      ensures Valid() && log == old(log) + [e]
    {
      rows := rows + [e];
      log := log + [e];
      sorted := false;
    }

    /** Any sort by hash will do; the order of entries with one hash is not promised. */
    method Sort()
      requires Valid()
      modifies this`rows, this`sorted
      ensures Valid() && sorted
    {
      if sorted {
        return;
      }
      rows := SortRows(rows);
      sorted := true;
    }

    /** Finds an entry with this hash if and only if one was ever added. */
    method Find(hash: Hash) returns (r: Option<TxEntry>)
      requires Valid()
      modifies this`rows, this`sorted
      ensures Valid()
      ensures r.Some? ==> r.value in log && r.value.hash == hash
      ensures r.None? ==> forall e :: e in log ==> e.hash != hash
    {
      if rows == [] {
        SameMembers(rows, log);
        return None;
      }
      Sort();
      SameMembers(rows, log);
      r := Search(rows, hash);
    }
  }

  method SortRows(t: seq<TxEntry>) returns (done: seq<TxEntry>)
    ensures ByHash(done) && multiset(done) == multiset(t)
  {
    hide ByHash, Place;
    done := [];
    assert ByHash(done) by { NothingOutOfOrder(); }
    for i := 0 to |t|
      invariant ByHash(done) && multiset(done) == multiset(t[..i])
    {
      PlaceKeepsOrder(done, t[i]);
      PlaceAdds(done, t[..i], t[i]);
      assert t[..i + 1] == t[..i] + [t[i]];
      var p := Place(done, t[i]);
      done := done[..p] + [t[i]] + done[p..];
    }
    assert t[..|t|] == t;
  }

  lemma NothingOutOfOrder()
    ensures ByHash([])
  {
  }

  lemma PlaceAdds(s: seq<TxEntry>, t: seq<TxEntry>, e: TxEntry)
    requires multiset(s) == multiset(t)
    ensures var p := Place(s, e); multiset(s[..p] + [e] + s[p..]) == multiset(t + [e])
  {
    var p := Place(s, e);
    hide Place;
    assert s == s[..p] + s[p..];
  }

  method Search(t: seq<TxEntry>, hash: Hash) returns (r: Option<TxEntry>)
    requires ByHash(t)
    ensures r.Some? ==> r.value in t && r.value.hash == hash
    ensures r.None? ==> forall i :: 0 <= i < |t| ==> t[i].hash != hash
  {
    hide Less;
    var lo, hi := 0, |t|;
    while lo < hi
      invariant 0 <= lo <= hi <= |t|
      invariant forall i :: 0 <= i < lo ==> t[i].hash != hash
      invariant forall i :: hi <= i < |t| ==> t[i].hash != hash
    {
      var mid := (lo + hi) / 2;
      if t[mid].hash == hash {
        return Some(t[mid]);
      }
      LessTotal(t[mid].hash, hash);
      if Less(t[mid].hash, hash) {
        assert forall i :: 0 <= i < mid ==> !Less(t[mid].hash, t[i].hash);
        lo := mid + 1;
      } else {
        assert forall i :: mid < i < |t| ==> !Less(t[i].hash, t[mid].hash);
        hi := mid;
      }
    }
    return None;
  }

  lemma SameMembers(a: seq<TxEntry>, b: seq<TxEntry>)
    requires multiset(a) == multiset(b)
    ensures forall e :: e in a <==> e in b
  {
    forall e ensures e in a <==> e in b {
      assert e in a <==> e in multiset(a);
      assert e in b <==> e in multiset(b);
    }
  }
}
