/** Sequence operations behind the repository queries: selection by a
    predicate (a `where` clause) and a stable sort by a key in descending
    order (an `order by … desc` clause, and `Stream.sorted` with a reversed
    comparator). */
module Sequences {
  import opened Wrappers

  /** The elements of `s` that satisfy `p`, in their order in `s`. */
  function Select<T>(s: seq<T>, p: T -> bool): (r: seq<T>)
    ensures |r| <= |s|
    ensures forall i :: 0 <= i < |r| ==> r[i] in s && p(r[i])
    ensures forall i :: 0 <= i < |s| && p(s[i]) ==> s[i] in r
    ensures multiset(r) <= multiset(s)
    decreases |s|
  {
    if s == [] then []
    else
      assert s == [s[0]] + s[1..];
      (if p(s[0]) then [s[0]] else []) + Select(s[1..], p)
  }

  /** Selection distributes over concatenation: appending a record to a
      table appends it to every query result it satisfies. */
  lemma {:induction false} SelectAppend<T>(s: seq<T>, t: seq<T>, p: T -> bool)
    ensures Select(s + t, p) == Select(s, p) + Select(t, p)
    decreases |s|
  {
    if s == [] {
      assert s + t == t;
    } else {
      assert (s + t)[1..] == s[1..] + t;
      SelectAppend(s[1..], t, p);
    }
  }

  /** Nothing is selected when no element qualifies. */
  lemma {:induction false} SelectNone<T>(s: seq<T>, p: T -> bool)
    requires forall i :: 0 <= i < |s| ==> !p(s[i])
    ensures Select(s, p) == []
    decreases |s|
  {
    if s != [] {
      SelectNone(s[1..], p);
    }
  }

  /** Selection only depends on what the predicate says about the elements. */
  lemma {:induction false} SelectExt<T>(s: seq<T>, p: T -> bool, q: T -> bool)
    requires forall i :: 0 <= i < |s| ==> p(s[i]) == q(s[i])
    ensures Select(s, p) == Select(s, q)
    decreases |s|
  {
    if s != [] {
      SelectExt(s[1..], p, q);
    }
  }

  /** `s` is ordered by `key`, largest first. */
  ghost predicate NonIncreasing<T>(s: seq<T>, key: T -> int)
  {
    forall i, j :: 0 <= i < j < |s| ==> key(s[i]) >= key(s[j])
  }

  /** Inserts `x` into the ordered `s` before the first element whose key is
      not larger, so that `x` stays ahead of the elements equal to it. */
  function InsertDesc<T>(x: T, s: seq<T>, key: T -> int): (r: seq<T>)
    requires NonIncreasing(s, key)
    ensures NonIncreasing(r, key)
    ensures multiset(r) == multiset(s) + multiset{x}
    ensures |r| == |s| + 1
    decreases |s|
  {
    if s == [] || key(s[0]) <= key(x) then [x] + s
    else
      var rest := InsertDesc(x, s[1..], key);
      assert s == [s[0]] + s[1..];
      InsertedBelowHead(x, s, rest, key);
      PrependNonIncreasing(s[0], rest, key);
      [s[0]] + rest
  }

  /** The tail of an ordered `s` with an element no larger than its head
      inserted stays below the head. */
  lemma InsertedBelowHead<T>(x: T, s: seq<T>, rest: seq<T>, key: T -> int)
    requires s != [] && NonIncreasing(s, key) && key(x) < key(s[0])
    requires multiset(rest) == multiset(s[1..]) + multiset{x}
    ensures forall i :: 0 <= i < |rest| ==> key(rest[i]) <= key(s[0])
  {
    forall i | 0 <= i < |rest|
      ensures key(rest[i]) <= key(s[0])
    {
      assert rest[i] in multiset(rest);
      if rest[i] != x {
        assert rest[i] in multiset(s[1..]);
        var j :| 0 <= j < |s[1..]| && s[1..][j] == rest[i];
        assert s[j + 1] == rest[i];
      }
    }
  }

  /** Putting in front an element no smaller than all the others keeps the order. */
  lemma PrependNonIncreasing<T>(y: T, s: seq<T>, key: T -> int)
    requires NonIncreasing(s, key)
    requires forall i :: 0 <= i < |s| ==> key(s[i]) <= key(y)
    ensures NonIncreasing([y] + s, key)
  {
  }

  /** A stable sort by `key`, largest first. */
  function SortDesc<T>(s: seq<T>, key: T -> int): (r: seq<T>)
    ensures NonIncreasing(r, key)
    ensures multiset(r) == multiset(s)
    ensures |r| == |s|
    decreases |s|
  {
    if s == [] then []
    else
      assert s == [s[0]] + s[1..];
      InsertDesc(s[0], SortDesc(s[1..], key), key)
  }

  /** Sorting what is already in order changes nothing: the second, in-memory
      sort after an ordered query returns the page as it came. */
  lemma {:induction false} SortDescOfOrdered<T>(s: seq<T>, key: T -> int)
    requires NonIncreasing(s, key)
    ensures SortDesc(s, key) == s
    decreases |s|
  {
    if s != [] {
      assert NonIncreasing(s[1..], key);
      SortDescOfOrdered(s[1..], key);
      assert s == [s[0]] + s[1..];
    }
  }

  /** No two elements of `s` share a key. */
  ghost predicate DistinctKeys<T>(s: seq<T>, key: T -> int)
  {
    forall i, j :: 0 <= i < j < |s| ==> key(s[i]) != key(s[j])
  }

  /** Inserting an element whose key no element has keeps the keys distinct. */
  lemma {:induction false} InsertDescDistinct<T>(x: T, s: seq<T>, sortKey: T -> int, key: T -> int)
    requires NonIncreasing(s, sortKey) && DistinctKeys(s, key)
    requires forall i :: 0 <= i < |s| ==> key(s[i]) != key(x)
    ensures DistinctKeys(InsertDesc(x, s, sortKey), key)
    decreases |s|
  {
    if s == [] || sortKey(s[0]) <= sortKey(x) {
    } else {
      var rest := InsertDesc(x, s[1..], sortKey);
      InsertDescDistinct(x, s[1..], sortKey, key);
      assert InsertDesc(x, s, sortKey) == [s[0]] + rest;
      forall j | 0 <= j < |rest| ensures key(s[0]) != key(rest[j]) {
        assert rest[j] in multiset(rest);
        if rest[j] != x {
          assert rest[j] in multiset(s[1..]);
          var m :| 0 <= m < |s[1..]| && s[1..][m] == rest[j];
          assert s[m + 1] == rest[j];
        }
      }
    }
  }

  /** Sorting keeps the keys of another column distinct. */
  lemma {:induction false} SortDescDistinct<T>(s: seq<T>, sortKey: T -> int, key: T -> int)
    requires DistinctKeys(s, key)
    ensures DistinctKeys(SortDesc(s, sortKey), key)
    decreases |s|
  {
    if s != [] {
      var sorted := SortDesc(s[1..], sortKey);
      SortDescDistinct(s[1..], sortKey, key);
      forall i | 0 <= i < |sorted| ensures key(sorted[i]) != key(s[0]) {
        assert sorted[i] in multiset(s[1..]);
        var m :| 0 <= m < |s[1..]| && s[1..][m] == sorted[i];
        assert s[m + 1] == sorted[i];
      }
      InsertDescDistinct(s[0], sorted, sortKey, key);
    }
  }

  /** A contiguous part of an ordered sequence is ordered. */
  lemma SliceNonIncreasing<T>(s: seq<T>, lo: nat, hi: nat, key: T -> int)
    requires lo <= hi <= |s| && NonIncreasing(s, key)
    ensures NonIncreasing(s[lo..hi], key)
  {
  }

  /** The keys of `s` grow strictly from left to right. */
  ghost predicate StrictlyIncreasing<T>(s: seq<T>, key: T -> int)
  {
    forall i, j :: 0 <= i < j < |s| ==> key(s[i]) < key(s[j])
  }

  /** Keys that grow strictly stay distinct in any selection. */
  lemma {:induction false} SelectKeepsIncreasing<T>(s: seq<T>, p: T -> bool, key: T -> int)
    requires StrictlyIncreasing(s, key)
    ensures StrictlyIncreasing(Select(s, p), key)
    decreases |s|
  {
    if s != [] {
      SelectKeepsIncreasing(s[1..], p, key);
      var rest := Select(s[1..], p);
      assert Select(s, p) == (if p(s[0]) then [s[0]] else []) + rest;
      if p(s[0]) {
        forall i | 0 <= i < |rest| ensures key(s[0]) < key(rest[i]) {
          var j :| 0 <= j < |s[1..]| && s[1..][j] == rest[i];
          assert s[j + 1] == rest[i];
        }
        PrependIncreasing(s[0], rest, key);
      }
    }
  }

  /** A selection from a table in strictly increasing key order is in that
      order too. */
  lemma SelectKeepsOrder<T>(s: seq<T>, p: T -> bool, key: T -> int)
    ensures StrictlyIncreasing(s, key) ==> StrictlyIncreasing(Select(s, p), key)
  {
    if StrictlyIncreasing(s, key) {
      SelectKeepsIncreasing(s, p, key);
    }
  }

  /** Two sequences in strictly increasing key order with the same
      elements are the same sequence: the order is determined by the keys. */
  lemma {:induction false} IncreasingDeterminedByElements<T>(a: seq<T>, b: seq<T>, key: T -> int)
    requires StrictlyIncreasing(a, key) && StrictlyIncreasing(b, key)
    requires forall x :: x in a <==> x in b
    ensures a == b
    decreases |a|
  {
    if a != [] {
      assert a[0] in b;
    }
    if b != [] {
      assert b[0] in a;
    }
    if a != [] {
      assert a[0] in b;
      var j :| 0 <= j < |b| && b[j] == a[0];
      assert b[0] in a;
      var i :| 0 <= i < |a| && a[i] == b[0];
      assert j == 0 && i == 0;
      forall x ensures x in a[1..] <==> x in b[1..] {
        if x in a[1..] {
          var m :| 0 <= m < |a[1..]| && a[1..][m] == x;
          assert key(a[0]) < key(x);
          assert x in b;
        }
        if x in b[1..] {
          var m :| 0 <= m < |b[1..]| && b[1..][m] == x;
          assert key(b[0]) < key(x);
          assert x in a;
        }
      }
      IncreasingDeterminedByElements(a[1..], b[1..], key);
      assert a == [a[0]] + a[1..] && b == [b[0]] + b[1..];
    }
  }

  /** Putting in front an element smaller than all the others keeps the order strict. */
  lemma PrependIncreasing<T>(y: T, s: seq<T>, key: T -> int)
    requires StrictlyIncreasing(s, key)
    requires forall i :: 0 <= i < |s| ==> key(y) < key(s[i])
    ensures StrictlyIncreasing([y] + s, key)
  {
  }

  /** Every key of `s` is positive and below `bound`. */
  ghost predicate KeysBelow<T>(s: seq<T>, key: T -> int, bound: int)
  {
    forall i :: 0 <= i < |s| ==> 0 < key(s[i]) < bound
  }

  /** The position of the first element of `s` whose key is `k`. */
  function IndexOf<T>(s: seq<T>, k: int, key: T -> int): (r: Option<nat>)
    ensures r.Some? ==> r.value < |s| && key(s[r.value]) == k
    ensures r.Some? ==> forall i :: 0 <= i < r.value ==> key(s[i]) != k
    ensures r.None? <==> forall i :: 0 <= i < |s| ==> key(s[i]) != k
    decreases |s|
  {
    if s == [] then None
    else if key(s[0]) == k then Some(0)
    else match IndexOf(s[1..], k, key)
      case None => None
      case Some(i) => Some(i + 1)
  }

  /** With distinct keys the element found is the only one with that key. */
  lemma IndexOfUnique<T>(s: seq<T>, k: int, key: T -> int, j: nat)
    requires StrictlyIncreasing(s, key)
    requires j < |s| && key(s[j]) == k
    ensures IndexOf(s, k, key) == Some(j)
  {
  }

  /** Two sequences with the same keys, position by position, find a key at
      the same position. */
  lemma IndexOfSameKeys<S, T>(s: seq<S>, t: seq<T>, keyS: S -> int, keyT: T -> int, k: int)
    requires |s| == |t| && forall i :: 0 <= i < |s| ==> keyS(s[i]) == keyT(t[i])
    ensures IndexOf(s, k, keyS) == IndexOf(t, k, keyT)
  {
  }

  /** Appending an element with a larger key keeps the keys increasing and bounded. */
  lemma AppendIncreasing<T>(s: seq<T>, x: T, key: T -> int, bound: int)
    requires StrictlyIncreasing(s, key) && KeysBelow(s, key, bound) && 0 < key(x) == bound
    ensures StrictlyIncreasing(s + [x], key) && KeysBelow(s + [x], key, bound + 1)
  {
  }

  /** Replacing an element by one with the same key keeps the keys as they were. */
  lemma UpdateKeepsKeys<T>(s: seq<T>, i: nat, x: T, key: T -> int, bound: int)
    requires i < |s| && key(x) == key(s[i])
    requires StrictlyIncreasing(s, key) && KeysBelow(s, key, bound)
    ensures StrictlyIncreasing(s[i := x], key) && KeysBelow(s[i := x], key, bound)
  {
  }

  /** With distinct keys, removing the element at `i` removes its key and
      keeps every element with another key. */
  lemma RemoveKey<T>(s: seq<T>, i: nat, key: T -> int)
    requires StrictlyIncreasing(s, key) && i < |s|
    ensures IndexOf(s[..i] + s[i + 1..], key(s[i]), key).None?
    ensures forall x :: x in s[..i] + s[i + 1..] <==> x in s && key(x) != key(s[i])
  {
    var t := s[..i] + s[i + 1..];
    assert forall a :: 0 <= a < |t| ==> t[a] == (if a < i then s[a] else s[a + 1]);
    forall x | x in s && key(x) != key(s[i])
      ensures x in t
    {
      var j :| 0 <= j < |s| && s[j] == x;
      if j < i {
        assert t[j] == x;
      } else {
        assert t[j - 1] == x;
      }
    }
  }

  /** Removing an element keeps the keys increasing and bounded. */
  lemma RemoveKeepsKeys<T>(s: seq<T>, i: nat, key: T -> int, bound: int)
    requires i < |s|
    requires StrictlyIncreasing(s, key) && KeysBelow(s, key, bound)
    ensures StrictlyIncreasing(s[..i] + s[i + 1..], key) && KeysBelow(s[..i] + s[i + 1..], key, bound)
  {
    var t := s[..i] + s[i + 1..];
    assert forall a :: 0 <= a < |t| ==> t[a] == (if a < i then s[a] else s[a + 1]);
  }
}
