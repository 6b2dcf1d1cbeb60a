/** The pool as one sorted array changed in place (src/mempool.c), proved against Pool.dfy. */
module Mempool {
  import opened Words
  import opened Types
  import opened Ledgers
  import opened Pool

  lemma Spliced<T>(s: seq<T>, before: seq<T>, pos: nat, e: T)
    requires pos <= |before| && |s| == |before| + 1 && s[pos] == e
    requires forall j :: 0 <= j < pos ==> s[j] == before[j]
    requires forall j :: pos < j < |s| ==> s[j] == before[j - 1]
    ensures s == before[..pos] + [e] + before[pos..]
  {
  }

  class TxPool {
    var chainId: U64
    var entries: array<Entry>
    var n: nat

    ghost predicate Valid()
      reads this
    {
      n <= entries.Length <= CAPACITY
    }

    ghost function Contents(): seq<Entry>
      reads this, entries
      requires Valid()
    {
      entries[..n]
    }

    constructor (id: U64)
      ensures Valid() && Contents() == [] && chainId == id && fresh(entries)
    {
      chainId := id;
      entries := new Entry[0];
      n := 0;
    }

    method Find(h: Hash) returns (i: int)
      requires Valid()
      ensures i == if Pool.Position(Contents(), h) < n then Pool.Position(Contents(), h) else -1
    {
      i := 0;
      while i < n
        invariant 0 <= i <= n
        invariant forall j :: 0 <= j < i ==> entries[j].hash != h
      {
        if entries[i].hash == h {
          PositionIs(entries[..n], h, i);
          return;
        }
        i := i + 1;
      }
      PositionIs(entries[..n], h, n);
      return -1;
    }

    /** Doubles the array, from 128 up to the capacity, when it is full. */
    method Reserve()
      requires Valid() && n < CAPACITY
      modifies this`entries
      ensures Valid() && n < entries.Length && Contents() == old(Contents())
      ensures entries == old(entries) || fresh(entries)
    {
      if n + 1 > entries.Length {
        var room := if entries.Length > 0 then entries.Length * 2 else 128;
        if room > CAPACITY {
          room := CAPACITY;
        }
        var grown := new Entry[room];
        for i := 0 to n
          modifies grown
          invariant grown[..i] == entries[..i]
        {
          grown[i] := entries[i];
        }
        entries := grown;
      }
    }

    method FindRank(tip: U64) returns (pos: nat)
      requires Valid()
      ensures pos == Rank(Contents(), tip)
    {
      pos := 0;
      while pos < n && entries[pos].tx.tip >= tip
        invariant pos <= n
        invariant forall j :: 0 <= j < pos ==> entries[j].tx.tip >= tip
      {
        pos := pos + 1;
      }
      RankIs(entries[..n], tip, pos);
    }

    /** Moves everything from `pos` on up by one. */
    method OpenGap(pos: nat)
      requires Valid() && pos <= n < entries.Length
      modifies entries
      ensures forall j :: 0 <= j < pos ==> entries[j] == old(entries[j])
      ensures forall j :: pos < j <= n ==> entries[j] == old(entries[j - 1])
    {
      var i := n;
      while i > pos
        invariant pos <= i <= n
        invariant forall j :: 0 <= j < i ==> entries[j] == old(entries[j])
        invariant forall j :: i < j <= n ==> entries[j] == old(entries[j - 1])
      {
        entries[i] := entries[i - 1];
        i := i - 1;
      }
    }

    method PutAt(pos: nat, e: Entry)
      requires Valid() && pos <= n < entries.Length
      modifies this`n, entries
      ensures Valid() && n == old(n) + 1
      ensures Contents() == old(Contents())[..pos] + [e] + old(Contents())[pos..]
    {
      ghost var before := Contents();
      OpenGap(pos);
      entries[pos] := e;
      n := n + 1;
      Spliced(entries[..n], before, pos, e);
    }

    method Insert(e: Entry)
      requires Valid() && n < CAPACITY
      modifies this`entries, this`n, entries
      ensures Valid() && n == old(n) + 1
      ensures entries == old(entries) || fresh(entries)
      ensures Contents() == Pool.Insert(old(Contents()), e)
    {
      hide Rank;
      ghost var before := Contents();
      Reserve();
      var pos := FindRank(e.tx.tip);
      PutAt(pos, e);
    }

    /** Closes the hole at `i`. */
    method RemoveAt(i: nat)
      requires Valid() && i < n
      modifies this`n, entries
      ensures Valid() && n == old(n) - 1
      ensures Contents() == Without(old(Contents()), i)
    {
      ghost var before := Contents();
      for j := i to n - 1
        modifies entries
        invariant forall k :: 0 <= k < i || j <= k < n ==> entries[k] == before[k]
        invariant forall k :: i <= k < j ==> entries[k] == before[k + 1]
      {
        entries[j] := entries[j + 1];
      }
      n := n - 1;
      assert entries[..n] == Without(before, i);
    }

    /** The first entry with the sender and nonce of `tx`, or `n`. */
    method FindRival(tx: Tx) returns (i: nat)
      requires Valid()
      ensures i == Rival(Contents(), tx)
    {
      i := 0;
      while i < n && !SamePair(entries[i].tx, tx)
        invariant i <= n
        invariant forall j :: 0 <= j < i ==> !SamePair(entries[j].tx, tx)
      {
        i := i + 1;
      }
      RivalIs(entries[..n], tx, i);
    }

    method Add(cr: Crypto, l: Ledger, tx: Tx, slot: U64) returns (outcome: Outcome)
      requires Valid()
      modifies this`entries, this`n, entries
      ensures Valid() && (entries == old(entries) || fresh(entries))
      ensures (Contents(), outcome) == Pool.Add(cr, chainId, old(Contents()), l, tx, slot)
    {
      hide Pool.Insert, Without, Refusal, Rival, Pool.Position;
      var refusal := Refusal(cr, chainId, l, tx, slot);
      if refusal.Some? {
        return refusal.value;
      }
      var e := Offered(cr, tx, slot);
      var found := Find(e.hash);
      if found >= 0 {
        return Duplicate;
      }
      var i := FindRival(tx);
      if i < n {
        if tx.tip <= entries[i].tx.tip {
          return Duplicate;
        }
        RemoveAt(i);
      }
      if n >= CAPACITY {
        if entries[n - 1].tx.tip >= tx.tip {
          return FullDropLowTip;
        }
        ghost var full := Contents();
        n := n - 1;
        assert Contents() == full[..|full| - 1];
      }
      Insert(e);
      return Accepted;
    }

    method Has(h: Hash) returns (yes: bool)
      requires Valid()
      ensures yes <==> exists e :: e in Contents() && e.hash == h
    {
      var i := Find(h);
      if i >= 0 {
        assert Contents()[i] in Contents();
      }
      return i >= 0;
    }

    method Remove(h: Hash)
      requires Valid()
      modifies this`n, entries
      ensures Valid() && Contents() == Pool.Remove(old(Contents()), h)
    {
      var i := Find(h);
      if i >= 0 {
        RemoveAt(i);
      }
    }

    /** Two indices over one array: survivors move down over the expired ones. */
    method PruneExpired(slot: U64) returns (dropped: nat)
      requires Valid()
      modifies this`n, entries
      ensures Valid() && Contents() == Unexpired(old(Contents()), slot)
      ensures dropped == old(n) - n
    {
      var w := KeepUnexpired(entries, n, slot);
      dropped := n - w;
      n := w;
    }

    /** Copies the first `max` transactions, highest tip first. */
    method Snapshot(max: nat) returns (out: seq<Tx>)
      requires Valid()
      ensures |out| == (if n < max then n else max)
      ensures forall i :: 0 <= i < |out| ==> out[i] == Contents()[i].tx
    {
      out := [];
      var k := if n < max then n else max;
      for i := 0 to k
        invariant |out| == i && forall j :: 0 <= j < i ==> out[j] == entries[j].tx
      {
        out := out + [entries[i].tx];
      }
    }
  }

  /** Moves the unexpired entries of `a[..n]` to the front, in order. */
  method KeepUnexpired(a: array<Entry>, n: nat, slot: U64) returns (w: nat)
    requires n <= a.Length
    modifies a
    ensures w <= n && a[..w] == Unexpired(old(a[..n]), slot)
  {
    hide Unexpired;
    ghost var before, kept: seq<Entry> := a[..n], [];
    UnexpiredOfNone(slot);
    w := 0;
    for r := 0 to n
      invariant w <= r && |kept| == w && kept == Unexpired(before[..r], slot)
      invariant forall k :: 0 <= k < w ==> a[k] == kept[k]
      invariant forall k :: r <= k < n ==> a[k] == before[k]
    {
      UnexpiredStep(before, r, slot);
      kept := Unexpired(before[..r + 1], slot);
      if a[r].tx.validUntil > slot {
        if w != r {
          a[w] := a[r];
        }
        w := w + 1;
      }
    }
    assert before[..n] == before;
  }

  lemma UnexpiredOfNone(slot: U64)
    ensures Unexpired([], slot) == []
  {
  }

  lemma UnexpiredStep(s: seq<Entry>, r: nat, slot: U64)
    requires r < |s|
    ensures Unexpired(s[..r + 1], slot) ==
      Unexpired(s[..r], slot) + if s[r].tx.validUntil <= slot then [] else [s[r]]
  {
    assert s[..r + 1][..r] == s[..r];
  }

  lemma PositionIs(s: seq<Entry>, h: Hash, i: nat)
    requires i <= |s| && (forall j :: 0 <= j < i ==> s[j].hash != h) && (i < |s| ==> s[i].hash == h)
    ensures Pool.Position(s, h) == i
  {
  }

  lemma RivalIs(s: seq<Entry>, tx: Tx, i: nat)
    requires i <= |s| && (forall j :: 0 <= j < i ==> !SamePair(s[j].tx, tx)) && (i < |s| ==> SamePair(s[i].tx, tx))
    ensures Rival(s, tx) == i
  {
  }
}
