/**
 * Listings of table rows. A SQL table has no order of its own; what the
 * store's callers see is the order an `ORDER BY` clause gives it. The model
 * keeps each table as the sequence its query lists, so the helpers here are
 * about keeping such a sequence ordered by an integer column, removing the
 * rows whose key matches, and the fact that a filtered listing is a
 * subsequence of the original one.
 */
module Rows {

  /** `s` is listed by ascending `key` (`ORDER BY key ASC`). */
  predicate Ascending<T>(s: seq<T>, key: T -> int) {
    forall i, j :: 0 <= i < j < |s| ==> key(s[i]) <= key(s[j])
  }

  /** `s` is listed by descending `key` (`ORDER BY key DESC`). */
  predicate Descending<T>(s: seq<T>, key: T -> int) {
    forall i, j :: 0 <= i < j < |s| ==> key(s[i]) >= key(s[j])
  }

  /** No two rows of `s` share a `key` (a primary key column). */
  predicate Unique<T, K(==)>(s: seq<T>, key: T -> K) {
    forall i, j :: 0 <= i < j < |s| ==> key(s[i]) != key(s[j])
  }

  /** `r` is `s` with some rows left out and the others kept in their order. */
  ghost predicate IsSubsequence<T>(r: seq<T>, s: seq<T>)
    decreases |s|
  {
    if s == [] then r == []
    else (r != [] && r[|r| - 1] == s[|s| - 1] && IsSubsequence(r[..|r| - 1], s[..|s| - 1]))
         || IsSubsequence(r, s[..|s| - 1])
  }

  // ---------------------------------------------------------------------
  // Inserting a row into an ordered listing
  // ---------------------------------------------------------------------

  /**
   * Where a row whose key is `k` appears in an ascending listing: after every
   * row whose key is at most `k`, so rows with equal keys stay in insertion order.
   */
  function AscendingSlot<T>(s: seq<T>, k: int, key: T -> int): (i: nat)
    ensures i <= |s|
    ensures forall j :: 0 <= j < i ==> key(s[j]) <= k
    ensures i < |s| ==> k < key(s[i])
    ensures Ascending(s, key) ==> forall j :: i <= j < |s| ==> k < key(s[j])
  {
    if s == [] || k < key(s[0]) then 0 else 1 + AscendingSlot(s[1..], k, key)
  }

  /**
   * Where a row whose key is `k` appears in a descending listing: before every
   * row whose key is at most `k`, so among equal keys the newest row comes first.
   */
  function DescendingSlot<T>(s: seq<T>, k: int, key: T -> int): (i: nat)
    ensures i <= |s|
    ensures forall j :: 0 <= j < i ==> k < key(s[j])
    ensures i < |s| ==> key(s[i]) <= k
    ensures Descending(s, key) ==> forall j :: i <= j < |s| ==> key(s[j]) <= k
  {
    if s == [] || key(s[0]) <= k then 0 else 1 + DescendingSlot(s[1..], k, key)
  }

  /** Appending one element and then a sequence is appending their concatenation. */
  lemma AppendThenExtend<T>(a: seq<T>, x: T, b: seq<T>)
    ensures a + [x] + b == a + ([x] + b)
  {
  }

  /** If `g` is `e` then `later`, `e` is `a` then `x`, and `whole` is `x` then `later`, then `g` is `a` then `whole`. */
  lemma AppendChain<T>(g: seq<T>, e: seq<T>, later: seq<T>, a: seq<T>, x: T, whole: seq<T>)
    requires g == e + later && e == a + [x] && whole == [x] + later
    ensures g == a + whole
  {
    AppendThenExtend(a, x, later);
  }

  /** Putting `x` at position `i` adds one row and leaves the others as they were. */
  lemma SpliceIn<T>(s: seq<T>, i: nat, x: T)
    requires i <= |s|
    ensures var r := s[..i] + [x] + s[i..];
      && |r| == |s| + 1
      && multiset(r) == multiset(s) + multiset{x}
      && r[i] == x && r[..i] + r[i + 1..] == s
      && forall j :: 0 <= j < |r| ==> r[j] in s || r[j] == x
  {
    var r := s[..i] + [x] + s[i..];
    assert s == s[..i] + s[i..];
    assert r[..i] == s[..i] && r[i + 1..] == s[i..];
    forall j | 0 <= j < |r| ensures r[j] in s || r[j] == x {
      if j < i { assert r[j] == s[j]; } else if j > i { assert r[j] == s[j - 1]; }
    }
  }

  /** Putting a row after the rows whose keys are at most its own, and before the larger ones, keeps a listing ascending. */
  lemma SpliceInAscending<T>(s: seq<T>, i: nat, x: T, key: T -> int)
    requires i <= |s|
    requires forall j :: 0 <= j < i ==> key(s[j]) <= key(x)
    ensures Ascending(s, key) && (forall j :: i <= j < |s| ==> key(x) <= key(s[j]))
      ==> Ascending(s[..i] + [x] + s[i..], key)
  {
  }

  /** Putting a row after the rows whose keys exceed its own, and before the others, keeps a listing descending. */
  lemma SpliceInDescending<T>(s: seq<T>, i: nat, x: T, key: T -> int)
    requires i <= |s|
    requires forall j :: 0 <= j < i ==> key(x) <= key(s[j])
    ensures Descending(s, key) && (forall j :: i <= j < |s| ==> key(s[j]) <= key(x))
      ==> Descending(s[..i] + [x] + s[i..], key)
  {
  }

  /** The ascending listing `s` after the row `x` was inserted. */
  function InsertAscending<T>(s: seq<T>, x: T, key: T -> int): (r: seq<T>)
    ensures |r| == |s| + 1
    ensures forall j :: 0 <= j < |r| ==> r[j] in s || r[j] == x
    ensures multiset(r) == multiset(s) + multiset{x}
    ensures Ascending(s, key) ==> Ascending(r, key)
    ensures (forall j :: 0 <= j < |s| ==> key(s[j]) <= key(x)) ==> r == s + [x]
  {
    var i := AscendingSlot(s, key(x), key);
    SpliceIn(s, i, x);
    SpliceInAscending(s, i, x, key);
    s[..i] + [x] + s[i..]
  }

  /** The descending listing `s` after the row `x` was inserted. */
  function InsertDescending<T>(s: seq<T>, x: T, key: T -> int): (r: seq<T>)
    ensures |r| == |s| + 1
    ensures forall j :: 0 <= j < |r| ==> r[j] in s || r[j] == x
    ensures multiset(r) == multiset(s) + multiset{x}
    ensures Descending(s, key) ==> Descending(r, key)
    ensures (forall j :: 0 <= j < |s| ==> key(s[j]) <= key(x)) ==> r == [x] + s
  {
    var i := DescendingSlot(s, key(x), key);
    SpliceIn(s, i, x);
    SpliceInDescending(s, i, x, key);
    NewestAtFront(s, i, x, key);
    s[..i] + [x] + s[i..]
  }

  /** A row whose key is at least every other row's goes to the front of a descending listing. */
  lemma NewestAtFront<T>(s: seq<T>, i: nat, x: T, key: T -> int)
    requires i == DescendingSlot(s, key(x), key)
    ensures (forall j :: 0 <= j < |s| ==> key(s[j]) <= key(x)) ==> s[..i] + [x] + s[i..] == [x] + s
  {
  }

  /** Deleting, by its key, a row put in among rows with other keys gives back those rows. */
  lemma SpliceThenRemove<T, K>(s: seq<T>, i: nat, x: T, id: T -> K)
    requires i <= |s|
    requires forall j :: 0 <= j < |s| ==> id(s[j]) != id(x)
    ensures RemoveKey(s[..i] + [x] + s[i..], id, id(x)) == s
  {
    var k := id(x);
    RemoveKeyAppend(s[..i] + [x], s[i..], id, k);
    RemoveKeyAppend(s[..i], [x], id, k);
    RemoveAbsentKey(s[..i], id, k);
    RemoveAbsentKey(s[i..], id, k);
    assert RemoveKey([x], id, k) == [] by {
      assert [x][..0] == [];
    }
    assert s[..i] + s[i..] == s;
  }

  /** Inserting a row whose key no other row has keeps the key unique. */
  lemma InsertKeepsUnique<T, K>(s: seq<T>, i: nat, x: T, id: T -> K)
    requires i <= |s| && Unique(s, id)
    requires forall j :: 0 <= j < |s| ==> id(s[j]) != id(x)
    ensures Unique(s[..i] + [x] + s[i..], id)
  {
  }

  // ---------------------------------------------------------------------
  // Deleting the rows with a given key (`DELETE ... WHERE key = ?`)
  // ---------------------------------------------------------------------

  /** `s` without the rows whose key is `k`. */
  function RemoveKey<T, K(==)>(s: seq<T>, key: T -> K, k: K): (r: seq<T>)
    ensures IsSubsequence(r, s)
    ensures |r| <= |s|
    decreases |s|
  {
    if s == [] then []
    else
      var front := RemoveKey(s[..|s| - 1], key, k);
      var last := s[|s| - 1];
      assert s == s[..|s| - 1] + [last];
      if key(last) == k then front
      else
        var r := front + [last];
        assert r[..|r| - 1] == front;
        r
  }

  /** The rows left are exactly the rows whose key is not `k`. */
  lemma {:induction false} RemoveKeyMembers<T, K>(s: seq<T>, key: T -> K, k: K)
    ensures forall j :: 0 <= j < |RemoveKey(s, key, k)| ==>
              RemoveKey(s, key, k)[j] in s && key(RemoveKey(s, key, k)[j]) != k
    ensures forall j :: 0 <= j < |s| && key(s[j]) != k ==> s[j] in RemoveKey(s, key, k)
    decreases |s|
  {
    if s != [] {
      var s' := s[..|s| - 1];
      RemoveKeyMembers(s', key, k);
      assert s == s' + [s[|s| - 1]];
    }
  }

  /** Deleting by key distributes over concatenation. */
  lemma {:induction false} RemoveKeyAppend<T, K>(a: seq<T>, b: seq<T>, key: T -> K, k: K)
    ensures RemoveKey(a + b, key, k) == RemoveKey(a, key, k) + RemoveKey(b, key, k)
    decreases |b|
  {
    if b == [] {
      assert a + b == a;
    } else {
      var b' := b[..|b| - 1];
      assert (a + b)[..|a + b| - 1] == a + b';
      assert (a + b)[|a + b| - 1] == b[|b| - 1];
      RemoveKeyAppend(a, b', key, k);
    }
  }

  /** Deleting a key no row has changes nothing. */
  lemma {:induction false} RemoveAbsentKey<T, K>(s: seq<T>, key: T -> K, k: K)
    ensures (forall j :: 0 <= j < |s| ==> key(s[j]) != k) ==> RemoveKey(s, key, k) == s
    decreases |s|
  {
    if s != [] && forall j :: 0 <= j < |s| ==> key(s[j]) != k {
      RemoveAbsentKey(s[..|s| - 1], key, k);
      assert s == s[..|s| - 1] + [s[|s| - 1]];
    }
  }

  /** With unique keys, deleting the key of row `i` removes exactly that row. */
  lemma RemoveKeyAt<T, K>(s: seq<T>, key: T -> K, i: nat)
    requires i < |s| && Unique(s, key)
    ensures RemoveKey(s, key, key(s[i])) == s[..i] + s[i + 1..]
  {
    var k := key(s[i]);
    assert s == s[..i] + [s[i]] + s[i + 1..];
    RemoveKeyAppend(s[..i] + [s[i]], s[i + 1..], key, k);
    RemoveKeyAppend(s[..i], [s[i]], key, k);
    RemoveAbsentKey(s[..i], key, k);
    RemoveAbsentKey(s[i + 1..], key, k);
    assert RemoveKey([s[i]], key, k) == [] by {
      assert [s[i]][..0] == [];
    }
  }

  /** With unique keys, deleting a key removes exactly the row that has it. */
  lemma RemoveKeyExactly<T, K>(s: seq<T>, key: T -> K, k: K)
    requires Unique(s, key)
    ensures forall i :: 0 <= i < |s| && key(s[i]) == k ==> RemoveKey(s, key, k) == s[..i] + s[i + 1..]
  {
    forall i | 0 <= i < |s| && key(s[i]) == k ensures RemoveKey(s, key, k) == s[..i] + s[i + 1..] {
      RemoveKeyAt(s, key, i);
    }
  }

  // ---------------------------------------------------------------------
  // What a subsequence inherits
  // ---------------------------------------------------------------------

  /** A subsequence keeps only rows of the original. */
  lemma {:induction false} SubsequenceMembers<T>(r: seq<T>, s: seq<T>)
    requires IsSubsequence(r, s)
    ensures forall x :: x in r ==> x in s
    decreases |s|
  {
    if s != [] {
      var s' := s[..|s| - 1];
      if r != [] && r[|r| - 1] == s[|s| - 1] && IsSubsequence(r[..|r| - 1], s') {
        SubsequenceMembers(r[..|r| - 1], s');
        assert r == r[..|r| - 1] + [r[|r| - 1]];
      } else {
        SubsequenceMembers(r, s');
      }
      assert s == s' + [s[|s| - 1]];
    }
  }

  /** A subsequence of an ascending listing is ascending. */
  lemma {:induction false} SubsequenceAscending<T>(r: seq<T>, s: seq<T>, key: T -> int)
    requires IsSubsequence(r, s) && Ascending(s, key)
    ensures Ascending(r, key)
    decreases |s|
  {
    if s != [] {
      var s' := s[..|s| - 1];
      assert Ascending(s', key);
      if r != [] && r[|r| - 1] == s[|s| - 1] && IsSubsequence(r[..|r| - 1], s') {
        var r' := r[..|r| - 1];
        SubsequenceAscending(r', s', key);
        SubsequenceMembers(r', s');
        forall p, q | 0 <= p < q < |r| ensures key(r[p]) <= key(r[q]) {
          if q < |r| - 1 {
            assert r[p] == r'[p] && r[q] == r'[q];
          } else {
            assert r[p] == r'[p] && r'[p] in s';
            var j :| 0 <= j < |s'| && s'[j] == r[p];
            assert s[j] == r[p];
          }
        }
      } else {
        SubsequenceAscending(r, s', key);
      }
    }
  }

  /** A subsequence of a descending listing is descending. */
  lemma {:induction false} SubsequenceDescending<T>(r: seq<T>, s: seq<T>, key: T -> int)
    requires IsSubsequence(r, s) && Descending(s, key)
    ensures Descending(r, key)
    decreases |s|
  {
    if s != [] {
      var s' := s[..|s| - 1];
      assert Descending(s', key);
      if r != [] && r[|r| - 1] == s[|s| - 1] && IsSubsequence(r[..|r| - 1], s') {
        var r' := r[..|r| - 1];
        SubsequenceDescending(r', s', key);
        SubsequenceMembers(r', s');
        forall p, q | 0 <= p < q < |r| ensures key(r[p]) >= key(r[q]) {
          if q < |r| - 1 {
            assert r[p] == r'[p] && r[q] == r'[q];
          } else {
            assert r[p] == r'[p] && r'[p] in s';
            var j :| 0 <= j < |s'| && s'[j] == r[p];
            assert s[j] == r[p];
          }
        }
      } else {
        SubsequenceDescending(r, s', key);
      }
    }
  }

  /** A subsequence of a listing with a unique key has a unique key. */
  lemma {:induction false} SubsequenceUnique<T, K>(r: seq<T>, s: seq<T>, key: T -> K)
    requires IsSubsequence(r, s) && Unique(s, key)
    ensures Unique(r, key)
    decreases |s|
  {
    if s != [] {
      var s' := s[..|s| - 1];
      assert Unique(s', key);
      if r != [] && r[|r| - 1] == s[|s| - 1] && IsSubsequence(r[..|r| - 1], s') {
        var r' := r[..|r| - 1];
        SubsequenceUnique(r', s', key);
        SubsequenceMembers(r', s');
        forall p, q | 0 <= p < q < |r| ensures key(r[p]) != key(r[q]) {
          if q < |r| - 1 {
            assert r[p] == r'[p] && r[q] == r'[q];
          } else {
            assert r[p] == r'[p] && r'[p] in s';
            var j :| 0 <= j < |s'| && s'[j] == r[p];
            assert s[j] == r[p];
          }
        }
      } else {
        SubsequenceUnique(r, s', key);
      }
    }
  }
}
