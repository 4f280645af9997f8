/** Offset/size paging as the services do it: `PageRequest.of(from / size, size)`
    with Java's `int` division, and the page of a query result. */
module Paging {
  import opened Wrappers
  import opened Domain
  import opened Sequences

  /** Java's integer division, which truncates toward zero. */
  function JavaDiv(a: int, b: int): (q: int)
    requires b != 0
    ensures a >= 0 && b > 0 ==> q == a / b
    ensures b > 0 ==> (q >= 0 <==> a > -b)
    ensures b > 0 && a >= 0 ==> q <= a
    ensures b > 0 && a < 0 ==> a <= q <= 0
  {
    if b > 0 then
      if a >= 0 then
        DivAtMost(a, b);
        a / b
      else
        DivZero(-a, b);
        DivAtMost(-a, b);
        -((-a) / b)
    else if a <= 0 then (-a) / (-b)
    else -(a / (-b))
  }

  /** A non-negative dividend below the divisor gives zero, a larger one does not. */
  lemma DivZero(n: nat, d: int)
    requires d > 0
    ensures n / d == 0 <==> n < d
  {
    if n >= d {
      assert n / d >= 1 by { assert n == d + (n - d); }
    }
  }

  /** Dividing a non-negative number by a positive one does not make it larger. */
  lemma DivAtMost(n: nat, d: int)
    requires d > 0
    ensures 0 <= n / d <= n
  {
    var q := n / d;
    assert n == q * d + n % d;
    MulAtLeast(q, d);
  }

  /** Multiplying by a positive number does not make a non-negative one smaller. */
  lemma {:induction false} MulAtLeast(a: int, b: nat)
    requires a >= 0 && b >= 1
    ensures a <= a * b
    decreases b
  {
    if b > 1 {
      MulAtLeast(a, b - 1);
      assert a * b == a * (b - 1) + a;
    }
  }

  /** The values of Java's `int`. */
  predicate IsInt32(x: int)
  {
    -0x8000_0000 <= x < 0x8000_0000
  }

  /** The `int` a 32-bit result wraps around to. */
  function Wrap32(x: int): (r: int)
    ensures IsInt32(r)
    ensures IsInt32(x) ==> r == x
  {
    (x + 0x8000_0000) % 0x1_0000_0000 - 0x8000_0000
  }

  /** A validated `PageRequest`: a zero-based page index and a positive size. */
  datatype PageRequest = PageRequest(index: nat, size: nat)

  const NegativePageIndex := IllegalArgument("Page index must not be less than zero")
  const PageSizeBelowOne := IllegalArgument("Page size must not be less than one")

  /** `PageRequest.of(from / size, size)` for `Integer` arguments: a zero
      `size` throws `ArithmeticException`, the quotient is an `int` (so
      `Integer.MIN_VALUE / -1` wraps around to `Integer.MIN_VALUE`), and
      `PageRequest` refuses a negative index before it refuses a size below one. */
  function PageRequestOf(from: int, size: int): (r: Result<PageRequest, Error>)
    ensures size == 0 ==> r == Err(Arithmetic("/ by zero"))
    ensures IsInt32(from) && IsInt32(size) ==> (r.Ok? <==> size > 0 && from > -size)
    ensures r.Ok? ==> r.value.size == size && r.value.index == Wrap32(JavaDiv(from, size))
    ensures IsInt32(from) && from >= 0 && size > 0 ==> r == Ok(PageRequest(from / size, size))
    ensures IsInt32(from) && 0 < size && from <= -size ==> r == Err(NegativePageIndex)
  {
    if size == 0 then Err(Arithmetic("/ by zero"))
    else
      var index := Wrap32(JavaDiv(from, size));
      if index < 0 then Err(NegativePageIndex)
      else if size < 1 then Err(PageSizeBelowOne)
      else Ok(PageRequest(index, size))
  }

  /** A negative size is reported as such, except that the one quotient
      that overflows, `Integer.MIN_VALUE / -1`, comes out negative and is
      reported as a negative page index. */
  lemma NegativeSizeErrors(from: int, size: int)
    requires IsInt32(from) && IsInt32(size) && size < 0
    ensures from == -0x8000_0000 && size == -1 ==> PageRequestOf(from, size) == Err(NegativePageIndex)
    ensures from >= 0 ==> PageRequestOf(from, size) == Err(if JavaDiv(from, size) < 0 then NegativePageIndex else PageSizeBelowOne)
    ensures from < 0 && !(from == -0x8000_0000 && size == -1) ==> PageRequestOf(from, size) == Err(PageSizeBelowOne)
  {
    if from < 0 {
      DivAtMost(-from, -size);
    } else {
      DivAtMost(from, -size);
    }
  }

  /** The offset of the first row of page `index` asks for that page. */
  lemma PageOfFrom(index: nat, size: int)
    requires 0 < size && IsInt32(index * size)
    ensures PageRequestOf(index * size, size) == Ok(PageRequest(index, size))
  {
    var from := index * size;
    var q, rest := from / size, from % size;
    assert size * (index - q) == rest;
  }

  function Min(a: int, b: int): int { if a < b then a else b }

  /** The position of the first row of page `p`. */
  function Offset(p: PageRequest): nat { p.index * p.size }

  /** How many rows page `p` of `n` rows holds: a full page, the rest on the
      last page, none past the end. */
  function PageLength(n: nat, p: PageRequest): (r: nat)
    ensures r <= p.size
    ensures Offset(p) + r <= n || r == 0
  {
    if Offset(p) >= n then 0 else Min(p.size, n - Offset(p))
  }

  /** `r` is page `p` of `s`: the `PageLength` elements of `s` from position
      `Offset(p)` on. */
  ghost predicate IsPage<T>(r: seq<T>, s: seq<T>, p: PageRequest)
  {
    && |r| == PageLength(|s|, p)
    && forall k :: 0 <= k < |r| ==> r[k] == s[Offset(p) + k]
  }

  /** The page `p` of `s`. */
  function PageOf<T>(s: seq<T>, p: PageRequest): (r: seq<T>)
    ensures IsPage(r, s, p)
    ensures |r| <= p.size
  {
    var lo := Min(Offset(p), |s|);
    s[lo..Min(lo + p.size, |s|)]
  }

  /** Row `k` of `n` rows is on page `k / size`, at position `k % size`. */
  lemma PagePosition(n: nat, size: nat, k: nat) returns (index: nat, at: nat)
    requires 0 < size && k < n
    ensures index * size + at == k
    ensures 0 <= index * size <= k
    ensures at < PageLength(n, PageRequest(index, size))
  {
    index, at := k / size, k % size;
  }

  /** Every element of a result that fits in an `int` is on the page of
      some offset `from`. */
  lemma {:induction false} OnSomePage<T>(s: seq<T>, size: int, x: T)
    requires 0 < size && |s| < 0x8000_0000 && x in s
    ensures exists from :: (0 <= from < |s| && PageRequestOf(from, size).Ok?
      && x in PageOf(s, PageRequestOf(from, size).value))
  {
    var k :| 0 <= k < |s| && s[k] == x;
    var index, at := PagePosition(|s|, size, k);
    var from := index * size;
    PageOfFrom(index, size);
    assert PageOf(s, PageRequest(index, size))[at] == x;
  }

  /** The first page holds everything when it is as large as the result. */
  lemma FirstPageIsAll<T>(s: seq<T>, size: nat)
    requires |s| <= size
    ensures PageOf(s, PageRequest(0, size)) == s
  {
  }

  /** A page holds only elements of the result. */
  lemma PageWithinRows<T>(s: seq<T>, p: PageRequest)
    ensures forall x :: x in PageOf(s, p) ==> x in s
  {
    var r := PageOf(s, p);
    forall x | x in r ensures x in s {
      var k :| 0 <= k < |r| && r[k] == x;
      assert s[Offset(p) + k] == x;
    }
  }

  /** A page of an ordered result is ordered, and holds only elements of the result. */
  lemma PageOfOrdered<T>(s: seq<T>, p: PageRequest, key: T -> int)
    requires NonIncreasing(s, key)
    ensures NonIncreasing(PageOf(s, p), key)
    ensures forall x :: x in PageOf(s, p) ==> x in s
  {
    var r := PageOf(s, p);
    forall i, j | 0 <= i < j < |r| ensures key(r[i]) >= key(r[j]) {
      assert r[i] == s[Offset(p) + i] && r[j] == s[Offset(p) + j];
    }
    PageWithinRows(s, p);
  }
}
