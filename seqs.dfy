/** Ordered tables as sequences of rows: the query primitives (first match, filter, offset/limit),
    the order they preserve, and the key-uniqueness invariant of the tables. */
module Seqs {
  import opened Wrappers

  function Min(a: int, b: int): int { if a <= b then a else b }

  function Max(a: int, b: int): int { if a <= b then b else a }

  /** Position of the first row satisfying p, or |s| when no row does. */
  function IndexWhere<T>(p: T -> bool, s: seq<T>): (k: nat)
    ensures k <= |s|
    ensures k < |s| ==> p(s[k])
    ensures forall j :: 0 <= j < k ==> !p(s[j])
  {
    if s == [] then 0
    else if p(s[0]) then 0
    else
      var k' := IndexWhere(p, s[1..]);
      assert forall j :: 1 <= j < k' + 1 ==> s[j] == s[1..][j - 1];
      1 + k'
  }

  /** The first row satisfying p in stored order, as a query's `.first()` returns it. */
  function First<T(!new)>(p: T -> bool, s: seq<T>): (r: Option<T>)
    ensures r.Some? ==> r.value in s && p(r.value)
    ensures r.None? <==> forall x :: x in s ==> !p(x)
    ensures r.Some? ==> exists k :: 0 <= k < |s| && s[k] == r.value && forall j :: 0 <= j < k ==> !p(s[j])
  {
    var k := IndexWhere(p, s);
    if k < |s| then Some(s[k]) else None
  }

  /** r keeps some of the rows of s, in the order s has them. */
  ghost predicate Subsequence<T>(r: seq<T>, s: seq<T>)
    decreases |s|
  {
    if r == [] then true
    else if s == [] then false
    else (r[0] == s[0] && Subsequence(r[1..], s[1..])) || Subsequence(r, s[1..])
  }

  /** The rows of s satisfying p, in stored order: a query's `.filter(...)`. */
  function Filter<T(!new)>(p: T -> bool, s: seq<T>): (r: seq<T>)
    ensures |r| <= |s|
    ensures forall x :: x in r <==> x in s && p(x)
    ensures Subsequence(r, s)
  {
    if s == [] then []
    else
      var rest := Filter(p, s[1..]);
      assert s == [s[0]] + s[1..];
      if p(s[0]) then
        assert ([s[0]] + rest)[1..] == rest;
        [s[0]] + rest
      else rest
  }

  /** A query's `.offset(skip).limit(limit)`: at most limit rows, starting at position skip. */
  function Page<T>(s: seq<T>, skip: nat, limit: nat): (r: seq<T>)
    ensures |r| <= limit
    ensures |r| == if skip < |s| then Min(limit, |s| - skip) else 0
    ensures forall k :: 0 <= k < |r| ==> r[k] == s[skip + k]
  {
    if skip < |s| then s[skip..skip + Min(limit, |s| - skip)] else []
  }

  lemma {:induction false} SliceIsSubsequence<T>(s: seq<T>, a: nat, b: nat)
    requires a <= b <= |s|
    ensures Subsequence(s[a..b], s)
    decreases |s|
  {
    if a == b {
    } else if a == 0 {
      SliceIsSubsequence(s[1..], 0, b - 1);
      assert s[0..b][1..] == s[1..][0..b - 1];
    } else {
      SliceIsSubsequence(s[1..], a - 1, b - 1);
      assert s[a..b] == s[1..][a - 1..b - 1];
    }
  }

  lemma {:induction false} SubsequenceTransitive<T>(a: seq<T>, b: seq<T>, c: seq<T>)
    requires Subsequence(a, b) && Subsequence(b, c)
    ensures Subsequence(a, c)
    decreases |c|
  {
    if a != [] {
      if b[0] == c[0] && Subsequence(b[1..], c[1..]) {
        if a[0] == b[0] && Subsequence(a[1..], b[1..]) {
          SubsequenceTransitive(a[1..], b[1..], c[1..]);
        } else {
          SubsequenceTransitive(a, b[1..], c[1..]);
        }
      } else {
        SubsequenceTransitive(a, b, c[1..]);
      }
    }
  }

  /** Every row of a subsequence is a row of the whole. */
  lemma {:induction false} SubsequenceMembers<T>(r: seq<T>, s: seq<T>, x: T)
    requires Subsequence(r, s) && x in r
    ensures x in s
    decreases |s|
  {
    if r[0] == s[0] && Subsequence(r[1..], s[1..]) {
      if x != r[0] {
        SubsequenceMembers(r[1..], s[1..], x);
      }
    } else {
      SubsequenceMembers(r, s[1..], x);
    }
  }

  /** A page keeps the table's order. */
  lemma PageIsSubsequence<T>(s: seq<T>, skip: nat, limit: nat)
    ensures Subsequence(Page(s, skip, limit), s)
  {
    if skip < |s| {
      SliceIsSubsequence(s, skip, skip + Min(limit, |s| - skip));
    }
  }

  /** A page of a filtered table keeps the table's order. */
  lemma PageOfFilterIsSubsequence<T(!new)>(p: T -> bool, s: seq<T>, skip: nat, limit: nat)
    ensures Subsequence(Page(Filter(p, s), skip, limit), s)
    ensures forall x :: x in Page(Filter(p, s), skip, limit) ==> x in s && p(x)
  {
    var rows := Filter(p, s);
    var r := Page(rows, skip, limit);
    PageIsSubsequence(rows, skip, limit);
    SubsequenceTransitive(r, rows, s);
    forall x | x in r ensures x in s && p(x) {
      SubsequenceMembers(r, rows, x);
    }
  }

  /** A page from 0 at least as long as the table lists every row the filter keeps. */
  lemma PageOfFilterComplete<T(!new)>(p: T -> bool, s: seq<T>, limit: nat, x: T)
    requires limit >= |s|
    requires x in s && p(x)
    ensures x in Page(Filter(p, s), 0, limit)
  {
    var rows := Filter(p, s);
    assert Page(rows, 0, limit) == rows;
  }

  /** No two rows of s share a key. */
  ghost predicate UniqueKey<T, K>(s: seq<T>, key: T -> K) {
    forall i, j :: 0 <= i < j < |s| ==> key(s[i]) != key(s[j])
  }

  lemma UniqueKeyAppend<T, K>(s: seq<T>, key: T -> K, x: T)
    requires UniqueKey(s, key)
    requires forall y :: y in s ==> key(y) != key(x)
    ensures UniqueKey(s + [x], key)
  {
    forall i, j | 0 <= i < j < |s + [x]| ensures key((s + [x])[i]) != key((s + [x])[j]) {
      if j == |s| {
        assert (s + [x])[i] == s[i] && s[i] in s;
      }
    }
  }

  /** Two rows of a uniquely keyed table with the same key are the same row. */
  lemma UniqueKeyMembers<T, K>(s: seq<T>, key: T -> K, x: T, y: T)
    requires UniqueKey(s, key) && x in s && y in s && key(x) == key(y)
    ensures x == y
  {
    var i :| 0 <= i < |s| && s[i] == x;
    var j :| 0 <= j < |s| && s[j] == y;
  }

  /** Filtering a uniquely keyed table keeps it uniquely keyed. */
  lemma {:induction false} FilterUniqueKey<T(!new), K>(p: T -> bool, s: seq<T>, key: T -> K)
    requires UniqueKey(s, key)
    ensures UniqueKey(Filter(p, s), key)
    decreases |s|
  {
    if s != [] {
      var tail := s[1..];
      assert UniqueKey(tail, key) by {
        forall i, j | 0 <= i < j < |tail| ensures key(tail[i]) != key(tail[j]) {
          assert tail[i] == s[i + 1] && tail[j] == s[j + 1];
        }
      }
      FilterUniqueKey(p, tail, key);
      var rest := Filter(p, tail);
      if p(s[0]) {
        forall x | x in rest ensures key(x) != key(s[0]) {
          var j :| 0 <= j < |tail| && tail[j] == x;
          assert s[j + 1] == x;
        }
        var r := [s[0]] + rest;
        forall i, j | 0 <= i < j < |r| ensures key(r[i]) != key(r[j]) {
          if i == 0 {
            assert r[j] == rest[j - 1] && rest[j - 1] in rest;
          } else {
            assert r[i] == rest[i - 1] && r[j] == rest[j - 1];
          }
        }
      }
    }
  }

  /** The next integer primary key: one past the largest key in use, and 1 for an empty table. */
  function NextId<T(!new)>(rows: seq<T>, id: T -> int): (n: int)
    ensures n >= 1
    ensures forall x :: x in rows ==> id(x) < n
  {
    if rows == [] then 1
    else
      var rest := NextId(rows[1..], id);
      assert forall x :: x in rows ==> x == rows[0] || x in rows[1..];
      Max(id(rows[0]) + 1, rest)
  }
}
