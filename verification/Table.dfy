/**
 Strictly sorted arrays of rows, the representation of both state tables, and the finite maps
 they stand for (src/state.c:6-9, 56-118, 147-195).
 */
module Table {
  import opened Words

  datatype Row<+V> = Row(key: Bytes, val: V)

  predicate Sorted<V>(t: seq<Row<V>>) {
    forall i, j :: 0 <= i < j < |t| ==> Less(t[i].key, t[j].key)
  }

  lemma SortedDistinct<V>(t: seq<Row<V>>)
    requires Sorted(t)
    ensures forall i, j :: 0 <= i < |t| && 0 <= j < |t| && t[i].key == t[j].key ==> i == j
  {
    forall i, j | 0 <= i < |t| && 0 <= j < |t| && t[i].key == t[j].key
      ensures i == j
    {
      LessIrreflexive(t[i].key);
    }
  }

  ghost function ToMap<V>(t: seq<Row<V>>): (m: map<Bytes, V>)
    requires Sorted(t)
    ensures forall k :: k in m <==> exists i :: 0 <= i < |t| && t[i].key == k
    ensures forall i :: 0 <= i < |t| ==> t[i].key in m && m[t[i].key] == t[i].val
  {
    SortedDistinct(t);
    map i | 0 <= i < |t| :: t[i].key := t[i].val
  }

  /** `p` is where `key` would have to be inserted. */
  predicate Gap<V>(t: seq<Row<V>>, key: Bytes, p: int) {
    && 0 <= p <= |t|
    && (forall i :: 0 <= i < p ==> Less(t[i].key, key))
    && (forall i :: p <= i < |t| ==> Less(key, t[i].key))
  }

  /**
   Binary search (src/state.c:60-70, 147-157): the index of `key`, or `-(p + 1)` where `p` is the
   insertion point.
   */
  method Lookup<V>(t: seq<Row<V>>, key: Bytes) returns (r: int)
    requires Sorted(t)
    ensures r >= 0 ==> r < |t| && t[r].key == key
    ensures r < 0 ==> Gap(t, key, -r - 1)
  {
    var lo, hi := 0, |t| - 1;
    while lo <= hi
      invariant 0 <= lo <= hi + 1 <= |t|
      invariant forall i :: 0 <= i < lo ==> Less(t[i].key, key)
      invariant forall i :: hi < i < |t| ==> Less(key, t[i].key)
    {
      var mid := (lo + hi) / 2;
      if t[mid].key == key {
        return mid;
      }
      LessTotal(t[mid].key, key);
      if Less(t[mid].key, key) {
        forall i | 0 <= i < mid ensures Less(t[i].key, key) { LessTransitive(t[i].key, t[mid].key, key); }
        lo := mid + 1;
      } else {
        forall i | mid < i < |t| ensures Less(key, t[i].key) { LessTransitive(key, t[mid].key, t[i].key); }
        hi := mid - 1;
      }
    }
    return -(lo + 1);
  }

  lemma GapIsAbsence<V>(t: seq<Row<V>>, key: Bytes, p: int)
    requires Sorted(t) && Gap(t, key, p)
    ensures key !in ToMap(t)
  {
    LessIrreflexive(key);
  }

  function InsertAt<V>(t: seq<Row<V>>, p: nat, row: Row<V>): seq<Row<V>>
    requires p <= |t|
  {
    t[..p] + [row] + t[p..]
  }

  function RemoveAt<V>(t: seq<Row<V>>, i: nat): seq<Row<V>>
    requires i < |t|
  {
    t[..i] + t[i + 1..]
  }

  predicate HasKey<V>(t: seq<Row<V>>, k: Bytes) {
    exists i :: 0 <= i < |t| && t[i].key == k
  }

  lemma ToMapIs<V>(t: seq<Row<V>>, m: map<Bytes, V>)
    requires Sorted(t)
    requires forall i :: 0 <= i < |t| ==> t[i].key in m && m[t[i].key] == t[i].val
    requires forall k :: k in m ==> HasKey(t, k)
    ensures ToMap(t) == m
  {
    hide Less, ToMap;
    assert forall k :: k in m ==> k in ToMap(t);
    assert forall k :: k in ToMap(t) ==> k in m && m[k] == ToMap(t)[k];
  }

  lemma InsertSorted<V>(t: seq<Row<V>>, p: nat, row: Row<V>)
    requires Sorted(t) && Gap(t, row.key, p)
    ensures Sorted(InsertAt(t, p, row))
  {
    hide Less;
    var u := InsertAt(t, p, row);
    assert forall i :: 0 <= i < p ==> u[i] == t[i];
    assert forall i :: p < i < |u| ==> u[i] == t[i - 1];
  }

  /** Inserting at the gap keeps the order and adds exactly one binding. */
  lemma InsertRefines<V>(t: seq<Row<V>>, p: nat, row: Row<V>)
    requires Sorted(t) && Gap(t, row.key, p)
    ensures Sorted(InsertAt(t, p, row))
    ensures ToMap(InsertAt(t, p, row)) == ToMap(t)[row.key := row.val]
  {
    hide Less, ToMap, Sorted;
    var u := InsertAt(t, p, row);
    InsertSorted(t, p, row);
    GapIsAbsence(t, row.key, p);
    forall k | k in ToMap(t)[row.key := row.val] ensures HasKey(u, k) {
      if k == row.key {
        assert u[p].key == k;
      } else {
        var i :| 0 <= i < |t| && t[i].key == k;
        assert u[if i < p then i else i + 1].key == k;
      }
    }
    forall i | 0 <= i < |u| ensures i != p ==> u[i] == t[if i < p then i else i - 1] {}
    ToMapIs(u, ToMap(t)[row.key := row.val]);
  }

  lemma RemoveSorted<V>(t: seq<Row<V>>, i: nat)
    requires Sorted(t) && i < |t|
    ensures Sorted(RemoveAt(t, i))
  {
    hide Less;
    var u := RemoveAt(t, i);
    assert forall j :: 0 <= j < i ==> u[j] == t[j];
    assert forall j :: i <= j < |u| ==> u[j] == t[j + 1];
  }

  lemma RemoveRefines<V>(t: seq<Row<V>>, i: nat)
    requires Sorted(t) && i < |t|
    ensures Sorted(RemoveAt(t, i))
    ensures ToMap(RemoveAt(t, i)) == ToMap(t) - {t[i].key}
  {
    hide Less, ToMap, Sorted;
    var u := RemoveAt(t, i);
    RemoveSorted(t, i);
    SortedDistinct(t);
    forall k | k in ToMap(t) - {t[i].key} ensures HasKey(u, k) {
      var j :| 0 <= j < |t| && t[j].key == k;
      assert u[if j < i then j else j - 1].key == k;
    }
    forall j | 0 <= j < |u| ensures u[j] == t[if j < i then j else j + 1] {}
    ToMapIs(u, ToMap(t) - {t[i].key});
  }

  lemma ReplaceRefines<V>(t: seq<Row<V>>, i: nat, v: V)
    requires Sorted(t) && i < |t|
    ensures var u := t[i := Row(t[i].key, v)]; Sorted(u) && ToMap(u) == ToMap(t)[t[i].key := v]
  {
    hide Less, ToMap;
    var u := t[i := Row(t[i].key, v)];
    assert forall j :: 0 <= j < |t| ==> u[j].key == t[j].key;
    SortedDistinct(t);
    forall k | k in ToMap(t)[t[i].key := v] ensures HasKey(u, k) {
      var j :| 0 <= j < |t| && t[j].key == k;
      assert u[j].key == k;
    }
    ToMapIs(u, ToMap(t)[t[i].key := v]);
  }

  lemma TailRefines<V>(t: seq<Row<V>>)
    requires Sorted(t) && t != []
    ensures Sorted(t[1..]) && ToMap(t[1..]) == ToMap(t) - {t[0].key}
  {
    RemoveRefines(t, 0);
    assert RemoveAt(t, 0) == t[1..];
  }

  /** One map has one sorted table: equal contents mean identical arrays. */
  lemma {:induction false} Canonical<V>(s: seq<Row<V>>, t: seq<Row<V>>)
    requires Sorted(s) && Sorted(t) && ToMap(s) == ToMap(t)
    ensures s == t
    decreases |s|
  {
    hide Less, ToMap;
    if s != [] {
      assert s[0].key in ToMap(t);
    }
    if t != [] {
      assert t[0].key in ToMap(s);
    }
    if s != [] {
      assert s[0].key in ToMap(t) && t[0].key in ToMap(s);
      var i :| 0 <= i < |t| && t[i].key == s[0].key;
      var j :| 0 <= j < |s| && s[j].key == t[0].key;
      if i > 0 && j > 0 {
        LessAsymmetric(t[0].key, s[0].key);
      }
      assert s[0] == t[0];
      TailRefines(s);
      TailRefines(t);
      Canonical(s[1..], t[1..]);
      assert s == [s[0]] + s[1..] && t == [t[0]] + t[1..];
    }
  }

  lemma {:induction false} GapExists<V>(t: seq<Row<V>>, key: Bytes) returns (p: nat)
    requires Sorted(t) && key !in ToMap(t)
    ensures Gap(t, key, p)
  {
    hide Less, ToMap;
    if t == [] {
      p := 0;
    } else {
      var n := |t| - 1;
      assert t[n].key in ToMap(t);
      LessTotal(t[n].key, key);
      if Less(t[n].key, key) {
        forall i | 0 <= i < n ensures Less(t[i].key, key) { LessTransitive(t[i].key, t[n].key, key); }
        p := |t|;
      } else {
        InitRefines(t);
        p := GapExists(t[..n], key);
        assert forall i :: 0 <= i < n ==> t[..n][i] == t[i];
      }
    }
  }

  lemma {:induction false} TableExists<V>(m: map<Bytes, V>) returns (t: seq<Row<V>>)
    ensures Sorted(t) && ToMap(t) == m
    decreases m.Keys
  {
    hide ToMap, Less;
    if m == map[] {
      t := [];
      ToMapIs(t, m);
    } else {
      var k :| k in m;
      var rest := TableExists(m - {k});
      var p := GapExists(rest, k);
      InsertRefines(rest, p, Row(k, m[k]));
      t := InsertAt(rest, p, Row(k, m[k]));
      assert (m - {k})[k := m[k]] == m;
    }
  }

  /** The sorted table of a map. */
  ghost function TableOf<V(!new)>(m: map<Bytes, V>): (t: seq<Row<V>>)
    ensures Sorted(t) && ToMap(t) == m
  {
    assert exists t: seq<Row<V>> :: Sorted(t) && ToMap(t) == m by {
      var t := TableExists(m);
    }
    var t: seq<Row<V>> :| Sorted(t) && ToMap(t) == m;
    t
  }

  // ---------------------------------------------------------------------------
  // Sums over a map
  // ---------------------------------------------------------------------------

  ghost function Total<V>(m: map<Bytes, V>, f: V -> nat): nat
    decreases |m|
  {
    if m == map[] then 0
    else var k :| k in m; f(m[k]) + Total(m - {k}, f)
  }

  /** The sum does not depend on the order in which keys are taken. */
  lemma {:induction false} TotalRemove<V>(m: map<Bytes, V>, f: V -> nat, k: Bytes)
    requires k in m
    ensures Total(m, f) == f(m[k]) + Total(m - {k}, f)
    decreases |m|
  {
    var j :| j in m && Total(m, f) == f(m[j]) + Total(m - {j}, f);
    if j != k {
      TotalRemove(m - {j}, f, k);
      TotalRemove(m - {k}, f, j);
      assert m - {j} - {k} == m - {k} - {j};
    }
  }

  lemma TotalUpdate<V>(m: map<Bytes, V>, f: V -> nat, k: Bytes, v: V)
    ensures Total(m[k := v], f) == f(v) + Total(m - {k}, f)
  {
    TotalRemove(m[k := v], f, k);
    assert m[k := v] - {k} == m - {k};
  }

  lemma TotalAbsent<V>(m: map<Bytes, V>, f: V -> nat, k: Bytes)
    ensures Total(m, f) == (if k in m then f(m[k]) else 0) + Total(m - {k}, f)
  {
    if k in m {
      TotalRemove(m, f, k);
    } else {
      assert m - {k} == m;
    }
  }

  lemma TotalOutside<V>(m: map<Bytes, V>, f: V -> nat, a: Bytes, b: Bytes, v: V)
    requires a != b
    ensures Total(m - {a}, f) == (if b in m then f(m[b]) else 0) + Total(m - {b} - {a}, f)
    ensures Total(m[b := v] - {a}, f) == f(v) + Total(m - {b} - {a}, f)
  {
    hide Total;
    assert m - {a} - {b} == m - {b} - {a};
    TotalAbsent(m - {a}, f, b);
    assert m[b := v] - {a} == (m - {a})[b := v];
    TotalUpdate(m - {a}, f, b, v);
  }

  function At<V>(m: map<Bytes, V>, f: V -> nat, k: Bytes): nat {
    if k in m then f(m[k]) else 0
  }

  /** The sum depends on what each key contributes and on nothing else. */
  lemma {:induction false} TotalSame<V>(m: map<Bytes, V>, n: map<Bytes, V>, f: V -> nat)
    requires forall k :: At(m, f, k) == At(n, f, k)
    ensures Total(m, f) == Total(n, f)
    decreases m.Keys + n.Keys
  {
    if m.Keys + n.Keys != {} {
      var k :| k in m.Keys + n.Keys;
      TotalAbsent(m, f, k);
      TotalAbsent(n, f, k);
      assert At(m, f, k) == At(n, f, k);
      forall j ensures At(m - {k}, f, j) == At(n - {k}, f, j) {
        assert At(m, f, j) == At(n, f, j);
      }
      TotalSame(m - {k}, n - {k}, f);
    }
  }

  lemma {:induction false} ShareSame<V>(m: map<Bytes, V>, n: map<Bytes, V>, f: V -> nat, s: seq<Bytes>)
    requires forall k :: At(m, f, k) == At(n, f, k)
    ensures Share(m, f, s) == Share(n, f, s)
  {
    if s != [] {
      ShareSame(m, n, f, s[1..]);
      assert At(m, f, s[0]) == At(n, f, s[0]);
    }
  }

  function RowSum<V>(t: seq<Row<V>>, f: V -> nat): nat {
    if t == [] then 0 else RowSum(t[..|t| - 1], f) + f(t[|t| - 1].val)
  }

  lemma InitRefines<V>(t: seq<Row<V>>)
    requires Sorted(t) && t != []
    ensures Sorted(t[..|t| - 1]) && ToMap(t[..|t| - 1]) == ToMap(t) - {t[|t| - 1].key}
  {
    RemoveRefines(t, |t| - 1);
    assert RemoveAt(t, |t| - 1) == t[..|t| - 1];
  }

  lemma {:induction false} ToMapSize<V>(t: seq<Row<V>>)
    requires Sorted(t)
    ensures |ToMap(t)| == |t|
  {
    if t == [] {
      assert ToMap(t) == map[];
    } else {
      InitRefines(t);
      ToMapSize(t[..|t| - 1]);
      hide ToMap, Sorted, Less;
      SizeWithout(ToMap(t), t[|t| - 1].key);
    }
  }

  /** Adding up the rows of a table is adding up its map. */
  lemma {:induction false} RowSumIsTotal<V>(t: seq<Row<V>>, f: V -> nat)
    requires Sorted(t)
    ensures RowSum(t, f) == Total(ToMap(t), f)
    decreases |t|
  {
    if t != [] {
      InitRefines(t);
      RowSumIsTotal(t[..|t| - 1], f);
      TotalRemove(ToMap(t), f, t[|t| - 1].key);
    }
  }

  lemma SizeWithout<V>(m: map<Bytes, V>, k: Bytes)
    requires k in m
    ensures |m| == |m - {k}| + 1
  {
    assert m.Keys == (m - {k}).Keys + {k};
  }

  lemma {:induction false} TotalBound<V>(m: map<Bytes, V>, f: V -> nat, bound: nat)
    requires forall k :: k in m ==> f(m[k]) <= bound
    ensures Total(m, f) <= |m| * bound
    decreases |m|
  {
    if m != map[] {
      hide Total;
      var k :| k in m;
      TotalRemove(m, f, k);
      TotalBound(m - {k}, f, bound);
      SizeWithout(m, k);
      Distribute(|m - {k}|, 1, bound);
    } else {
      assert Total(m, f) == 0;
    }
  }

  predicate Distinct(s: seq<Bytes>) {
    forall i, j :: 0 <= i < j < |s| ==> s[i] != s[j]
  }

  /** What the keys of `s` contribute to the sum; a key outside the map contributes nothing. */
  function Share<V>(m: map<Bytes, V>, f: V -> nat, s: seq<Bytes>): nat {
    if s == [] then 0
    else (if s[0] in m then f(m[s[0]]) else 0) + Share(m, f, s[1..])
  }

  lemma {:induction false} ShareAppend<V>(m: map<Bytes, V>, f: V -> nat, s: seq<Bytes>, t: seq<Bytes>)
    ensures Share(m, f, s + t) == Share(m, f, s) + Share(m, f, t)
  {
    if s == [] {
      assert s + t == t;
    } else {
      ShareAppend(m, f, s[1..], t);
      assert (s + t)[1..] == s[1..] + t;
    }
  }

  lemma {:induction false} ShareElsewhere<V>(m: map<Bytes, V>, f: V -> nat, s: seq<Bytes>, k: Bytes)
    requires k !in s
    ensures Share(m - {k}, f, s) == Share(m, f, s)
  {
    if s != [] {
      ShareElsewhere(m, f, s[1..], k);
    }
  }

  function Without(t: seq<Bytes>, k: nat): seq<Bytes>
    requires k < |t|
  {
    t[..k] + t[k + 1..]
  }

  lemma ShareWithout<V>(m: map<Bytes, V>, f: V -> nat, t: seq<Bytes>, k: nat)
    requires k < |t|
    ensures Share(m, f, t) == Share(m, f, [t[k]]) + Share(m, f, Without(t, k))
  {
    hide Share;
    assert t == t[..k] + ([t[k]] + t[k + 1..]);
    ShareAppend(m, f, t[..k], [t[k]] + t[k + 1..]);
    ShareAppend(m, f, [t[k]], t[k + 1..]);
    ShareAppend(m, f, t[..k], t[k + 1..]);
  }

  lemma WithoutKeepsOthers(t: seq<Bytes>, k: nat, a: Bytes)
    requires k < |t| && a in t && a != t[k]
    ensures a in Without(t, k)
  {
    var j :| 0 <= j < |t| && t[j] == a;
    assert Without(t, k)[if j < k then j else j - 1] == a;
  }

  /** A sublist of distinct keys contributes no more than the list. */
  lemma {:induction false} ShareSubset<V>(m: map<Bytes, V>, f: V -> nat, s: seq<Bytes>, t: seq<Bytes>)
    requires Distinct(s) && Distinct(t) && forall a :: a in s ==> a in t
    ensures Share(m, f, s) <= Share(m, f, t)
    decreases |s|
  {
    if s != [] {
      assert s[0] in s;
      var k :| 0 <= k < |t| && t[k] == s[0];
      forall a | a in s[1..] ensures a in Without(t, k) {
        assert a in s;
        WithoutKeepsOthers(t, k, a);
      }
      ShareSubset(m, f, s[1..], Without(t, k));
      ShareWithout(m, f, t, k);
      ShareWithout(m, f, s, 0);
      assert Without(s, 0) == s[1..];
    }
  }

  /** Distinct keys never contribute more than the whole. */
  lemma {:induction false} ShareBound<V>(m: map<Bytes, V>, f: V -> nat, s: seq<Bytes>)
    requires Distinct(s)
    ensures Share(m, f, s) <= Total(m, f)
    decreases |s|
  {
    if s != [] {
      ShareBound(m - {s[0]}, f, s[1..]);
      ShareElsewhere(m, f, s[1..], s[0]);
      TotalAbsent(m, f, s[0]);
    }
  }

  /** Two lists of distinct keys that together exceed the whole have a key in common. */
  lemma SharesOverlap<V>(m: map<Bytes, V>, f: V -> nat, s: seq<Bytes>, t: seq<Bytes>)
    requires Distinct(s) && Distinct(t)
    requires Share(m, f, s) + Share(m, f, t) > Total(m, f)
    ensures exists i, j :: 0 <= i < |s| && 0 <= j < |t| && s[i] == t[j]
  {
    if forall i, j :: 0 <= i < |s| && 0 <= j < |t| ==> s[i] != t[j] {
      ShareAppend(m, f, s, t);
      ShareBound(m, f, s + t);
    }
  }

  /** The members of `t` that are in `s`, and those that are not. */
  function Common(t: seq<Bytes>, s: seq<Bytes>): seq<Bytes> {
    if t == [] then [] else Common(t[..|t| - 1], s) + if t[|t| - 1] in s then [t[|t| - 1]] else []
  }

  function Rest(t: seq<Bytes>, s: seq<Bytes>): seq<Bytes> {
    if t == [] then [] else Rest(t[..|t| - 1], s) + if t[|t| - 1] in s then [] else [t[|t| - 1]]
  }

  lemma {:induction false} CommonMembers(t: seq<Bytes>, s: seq<Bytes>, a: Bytes)
    ensures a in Common(t, s) <==> a in t && a in s
    ensures a in Rest(t, s) <==> a in t && a !in s
  {
    if t != [] {
      CommonMembers(t[..|t| - 1], s, a);
      assert t == t[..|t| - 1] + [t[|t| - 1]];
    }
  }

  lemma {:induction false} RestDistinct(t: seq<Bytes>, s: seq<Bytes>)
    requires Distinct(t)
    ensures Distinct(Rest(t, s))
  {
    if t != [] {
      var init := t[..|t| - 1];
      RestDistinct(init, s);
      CommonMembers(init, s, t[|t| - 1]);
    }
  }

  lemma {:induction false} ShareSplits<V>(m: map<Bytes, V>, f: V -> nat, t: seq<Bytes>, s: seq<Bytes>)
    ensures Share(m, f, t) == Share(m, f, Common(t, s)) + Share(m, f, Rest(t, s))
  {
    if t != [] {
      hide Share;
      var init, last := t[..|t| - 1], [t[|t| - 1]];
      ShareSplits(m, f, init, s);
      assert t == init + last;
      ShareAppend(m, f, init, last);
      if last[0] in s {
        assert Common(t, s) == Common(init, s) + last && Rest(t, s) == Rest(init, s);
        ShareAppend(m, f, Common(init, s), last);
      } else {
        assert Common(t, s) == Common(init, s) && Rest(t, s) == Rest(init, s) + last;
        ShareAppend(m, f, Rest(init, s), last);
      }
    } else {
      assert Share(m, f, []) == 0;
    }
  }

  lemma AppendDistinct(r: seq<Bytes>, u: seq<Bytes>)
    requires Distinct(r) && Distinct(u) && forall a :: a in r ==> a !in u
    ensures Distinct(r + u)
  {
    forall i, j | 0 <= i < j < |r + u| ensures (r + u)[i] != (r + u)[j] {
      if i < |r| <= j {
        assert r[i] in r && u[j - |r|] in u;
      }
    }
  }

  /** Two lists share at least what their weights exceed the total by. */
  lemma CommonIsHeavy<V>(m: map<Bytes, V>, f: V -> nat, s: seq<Bytes>, t: seq<Bytes>)
    requires Distinct(s) && Distinct(t)
    ensures Share(m, f, Common(t, s)) + Total(m, f) >= Share(m, f, s) + Share(m, f, t)
  {
    hide Share, Total, Common, Rest;
    RestDistinct(t, s);
    forall a | a in s ensures a !in Rest(t, s) {
      CommonMembers(t, s, a);
    }
    AppendDistinct(s, Rest(t, s));
    ShareSplits(m, f, t, s);
    ShareAppend(m, f, s, Rest(t, s));
    ShareBound(m, f, s + Rest(t, s));
  }
}
