/** Wrap-around index arithmetic shared by the review carousel and the image
    gallery: `(i + 1) % n` and `(i - 1 + n) % n` with JavaScript's `%`. */
module WrapIndex {

  /** JavaScript's `a % n` for a positive `n`: the remainder takes the sign of
      `a` (Dafny's `%` never returns a negative value). */
  function JsRem(a: int, n: int): (r: int)
    requires n > 0
    ensures a >= 0 ==> 0 <= r < n && r == a % n
    ensures 0 <= a < 2 * n ==> r == if a < n then a else a - n
    ensures a < 0 ==> -n < r <= 0
  {
    if a >= 0 then
      ModWindow(a, n);
      a % n
    else
      -((-a) % n)
  }

  /** Within two laps of the ring, the remainder subtracts at most one lap. */
  lemma ModWindow(a: int, n: int)
    requires n > 0 && a >= 0
    ensures a < 2 * n ==> a % n == if a < n then a else a - n
  {
    if n <= a < 2 * n {
      assert a == n + (a - n);
    }
  }

  /** The index after "next". */
  function Next(i: int, n: int): (r: int)
    requires n > 0
    ensures 0 <= i < n ==> 0 <= r < n
    ensures 0 <= i < n ==> r == if i == n - 1 then 0 else i + 1
  {
    JsRem(i + 1, n)
  }

  /** The index after "previous". */
  function Prev(i: int, n: int): (r: int)
    requires n > 0
    ensures 0 <= i < n ==> 0 <= r < n
    ensures 0 <= i < n ==> r == if i == 0 then n - 1 else i - 1
  {
    JsRem(i - 1 + n, n)
  }

  /** Previous undoes next and next undoes previous on in-range indices. */
  lemma PrevNextInverse(i: int, n: int)
    requires 0 <= i < n
    ensures Prev(Next(i, n), n) == i
    ensures Next(Prev(i, n), n) == i
  {
  }

  /** A single-item ring never moves. */
  lemma SingleItemStays(n: int)
    requires n == 1
    ensures Next(0, n) == 0 && Prev(0, n) == 0
  {
  }

  /** `k` steps of "next". */
  function Advance(i: int, n: int, k: nat): int
    requires n > 0
  {
    if k == 0 then i else Next(Advance(i, n, k - 1), n)
  }

  /** Below the end of the ring, `k` steps of "next" just add `k`. */
  lemma {:induction false} AdvanceWithinRing(i: int, n: int, k: nat)
    requires 0 <= i && i + k < n
    ensures Advance(i, n, k) == i + k
  {
    if k > 0 {
      AdvanceWithinRing(i, n, k - 1);
    }
  }

  /** Steps compose: `a + b` steps are `a` steps followed by `b` steps. */
  lemma {:induction false} AdvanceCompose(i: int, n: int, a: nat, b: nat)
    requires n > 0
    ensures Advance(i, n, a + b) == Advance(Advance(i, n, a), n, b)
  {
    if b > 0 {
      AdvanceCompose(i, n, a, b - 1);
    }
  }

  /** `n` steps of "next" come back to the start. */
  lemma FullCycle(i: int, n: int)
    requires 0 <= i < n
    ensures Advance(i, n, n) == i
  {
    AdvanceWithinRing(i, n, n - 1 - i);
    assert Advance(i, n, n - i) == 0;
    AdvanceCompose(i, n, n - i, i);
    if i > 0 {
      AdvanceWithinRing(0, n, i);
    }
  }
}
