/** The two queries the handlers send to the store over one table:
    `findMany` with `orderBy: { position: 'asc' }` and `findFirst` with
    `orderBy: { position: 'desc' }`, over rows kept in a map. */
module Listing {
  import opened Optional

  /** Ascending (ties allowed) by `key`. */
  ghost predicate SortedBy<T>(s: seq<T>, key: T -> int)
  {
    forall i, j :: 0 <= i < j < |s| ==> key(s[i]) <= key(s[j])
  }

  /** No row appears twice, as judged by its id. */
  ghost predicate DistinctIds<K, T>(s: seq<T>, id: T -> K)
  {
    forall i, j :: 0 <= i < j < |s| ==> id(s[i]) != id(s[j])
  }

  /** The first place in `s` whose key exceeds `k`. */
  function InsertionPoint<T>(k: int, s: seq<T>, key: T -> int): (p: nat)
    ensures p <= |s|
    ensures forall i :: 0 <= i < p ==> key(s[i]) <= k
    ensures p < |s| ==> k < key(s[p])
  {
    if |s| == 0 || k < key(s[0]) then 0 else 1 + InsertionPoint(k, s[1..], key)
  }

  /** Where each element of `s[..p] + [x] + s[p..]` comes from. */
  lemma SpliceIndices<T>(x: T, s: seq<T>, p: nat)
    requires p <= |s|
    ensures |s[..p] + [x] + s[p..]| == |s| + 1
    ensures forall i :: 0 <= i < p ==> (s[..p] + [x] + s[p..])[i] == s[i]
    ensures (s[..p] + [x] + s[p..])[p] == x
    ensures forall i :: p < i <= |s| ==> (s[..p] + [x] + s[p..])[i] == s[i - 1]
  {
  }

  /** Splicing `x` in at a point that separates the keys not above it from the
      keys above it keeps a sorted sequence sorted. */
  lemma SpliceSorted<T>(x: T, s: seq<T>, key: T -> int, p: nat)
    requires SortedBy(s, key)
    requires p <= |s|
    requires forall i :: 0 <= i < p ==> key(s[i]) <= key(x)
    requires p < |s| ==> key(x) < key(s[p])
    ensures SortedBy(s[..p] + [x] + s[p..], key)
  {
    var r := s[..p] + [x] + s[p..];
    SpliceIndices(x, s, p);
    forall i, j | 0 <= i < j < |r|
      ensures key(r[i]) <= key(r[j])
    {
      if j < p {
        assert key(s[i]) <= key(s[j]);
      } else if j == p {
        assert key(r[i]) <= key(x);
      } else if i < p {
        assert key(s[i]) <= key(x) < key(s[p]) <= key(s[j - 1]);
      } else if i == p {
        assert key(s[p]) <= key(s[j - 1]);
      } else {
        assert key(s[i - 1]) <= key(s[j - 1]);
      }
    }
  }

  /** Splicing adds exactly one occurrence of `x`. */
  lemma SpliceMultiset<T>(x: T, s: seq<T>, p: nat)
    requires p <= |s|
    ensures multiset(s[..p] + [x] + s[p..]) == multiset(s) + multiset{x}
  {
    assert s == s[..p] + s[p..];
  }

  /** Puts `x` into the sorted `s` after every element whose key is not larger. */
  function InsertBy<T>(x: T, s: seq<T>, key: T -> int): (r: seq<T>)
    requires SortedBy(s, key)
    ensures SortedBy(r, key)
    ensures |r| == |s| + 1
    ensures multiset(r) == multiset(s) + multiset{x}
    ensures exists p :: 0 <= p <= |s| && r == s[..p] + [x] + s[p..]
  {
    var p := InsertionPoint(key(x), s, key);
    SpliceSorted(x, s, key, p);
    SpliceMultiset(x, s, p);
    s[..p] + [x] + s[p..]
  }

  /** Inserting a row whose id is new keeps the ids distinct. */
  lemma InsertKeepsDistinct<K, T>(x: T, s: seq<T>, key: T -> int, id: T -> K)
    requires SortedBy(s, key)
    requires DistinctIds(s, id)
    requires forall y :: y in s ==> id(y) != id(x)
    ensures DistinctIds(InsertBy(x, s, key), id)
  {
    var r := InsertBy(x, s, key);
    var p :| 0 <= p <= |s| && r == s[..p] + [x] + s[p..];
    forall i, j | 0 <= i < j < |r|
      ensures id(r[i]) != id(r[j])
    {
      if i < p && j == p {
        assert r[i] == s[i];
      } else if i < p && j > p {
        assert r[i] == s[i] && r[j] == s[j - 1];
      } else if i == p {
        assert r[j] == s[j - 1];
      } else if i > p {
        assert r[i] == s[i - 1] && r[j] == s[j - 1];
      }
    }
  }

  /** `findMany({ where: keep, orderBy: { position: 'asc' } })`: every row of
      `m` that `keep` accepts, each once, ascending by `key`. The order among
      equal keys is whatever the scan produced; the store leaves it open too. */
  method CollectSorted<K(==), T(==)>(m: map<K, T>, keep: T -> bool, key: T -> int, id: T -> K)
    returns (r: seq<T>)
    requires forall k :: k in m ==> id(m[k]) == k
    ensures SortedBy(r, key)
    ensures forall x :: x in r <==> x in m.Values && keep(x)
    ensures DistinctIds(r, id)
  {
    r := [];
    var todo := m.Keys;
    while todo != {}
      invariant todo <= m.Keys
      invariant SortedBy(r, key)
      invariant DistinctIds(r, id)
      invariant forall x :: x in r ==> x in m.Values && keep(x) && id(x) !in todo
      invariant forall k :: k in m && k !in todo && keep(m[k]) ==> m[k] in r
      decreases todo
    {
      var k :| k in todo;
      if keep(m[k]) {
        InsertKeepsDistinct(m[k], r, key, id);
        r := InsertBy(m[k], r, key);
      }
      todo := todo - {k};
    }
  }

  /** `findFirst({ where: keep, orderBy: { position: 'desc' } })`: no row when
      `keep` accepts none, otherwise an accepted row whose key is maximal. */
  method FindLast<K, T(==)>(m: map<K, T>, keep: T -> bool, key: T -> int) returns (last: Option<T>)
    ensures last.None? <==> forall x :: x in m.Values ==> !keep(x)
    ensures last.Some? ==> last.value in m.Values && keep(last.value)
    ensures last.Some? ==> forall x :: x in m.Values && keep(x) ==> key(x) <= key(last.value)
  {
    last := None;
    var todo := m.Keys;
    while todo != {}
      invariant todo <= m.Keys
      invariant last.None? ==> forall k :: k in m && k !in todo ==> !keep(m[k])
      invariant last.Some? ==> last.value in m.Values && keep(last.value)
      invariant last.Some? ==> forall k :: k in m && k !in todo && keep(m[k]) ==> key(m[k]) <= key(last.value)
      decreases todo
    {
      var k :| k in todo;
      if keep(m[k]) && (last.None? || key(last.value) < key(m[k])) {
        last := Some(m[k]);
      }
      todo := todo - {k};
    }
  }

  /** In an ascending sequence, an element whose key is strictly above every
      other element's comes last. */
  lemma StrictMaxIsLast<T>(s: seq<T>, key: T -> int, x: T)
    requires SortedBy(s, key)
    requires x in s
    requires forall y :: y in s && y != x ==> key(y) < key(x)
    ensures s[|s| - 1] == x
  {
    var i :| 0 <= i < |s| && s[i] == x;
    assert i < |s| - 1 ==> key(s[i]) <= key(s[|s| - 1]);
  }
}

