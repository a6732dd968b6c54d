/** Index arithmetic shared by the three lightboxes: JavaScript's `%`
    operator and the wrap-around "next" and "previous" positions in a list
    of `n` items. */
module Cyclic {

  function Abs(x: int): nat {
    if x < 0 then -x else x
  }

  /** JavaScript `a % b` on integers: the remainder of division truncated
      toward zero, so it takes the sign of the dividend. (`b == 0` gives
      `NaN` in JavaScript; the model rules it out.) */
  function JsRem(a: int, b: int): (r: int)
    requires b != 0
    ensures Abs(r) < Abs(b)
    ensures a >= 0 ==> 0 <= r
    ensures a <= 0 ==> r <= 0
  {
    if a >= 0 then a % Abs(b) else -((-a) % Abs(b))
  }

  /** The position after `i` in a cycle of `n` positions. */
  function Next(i: nat, n: nat): (r: nat)
    requires i < n
    ensures r < n
  {
    if i + 1 == n then 0 else i + 1
  }

  /** The position before `i` in a cycle of `n` positions. */
  function Prev(i: nat, n: nat): (r: nat)
    requires i < n
    ensures r < n
  {
    if i == 0 then n - 1 else i - 1
  }

  /** The lightboxes compute `(i + 1) % n`; for an index in range that is
      `Next(i, n)`: the last index wraps to 0. */
  lemma NextIsRemainder(i: nat, n: nat)
    requires i < n
    ensures JsRem(i + 1, n) == Next(i, n)
    ensures i == n - 1 ==> Next(i, n) == 0
  {
    if i + 1 < n {
      SmallRemainder(i + 1, n);
    }
  }

  /** The lightboxes compute `(i - 1 + n) % n`; for an index in range that
      is `Prev(i, n)`: index 0 wraps to `n - 1`. */
  lemma PrevIsRemainder(i: nat, n: nat)
    requires i < n
    ensures JsRem(i - 1 + n, n) == Prev(i, n)
    ensures i == 0 ==> Prev(i, n) == n - 1
  {
    if i == 0 {
      SmallRemainder(n - 1, n);
    } else {
      ShiftRemainder(i - 1, n);
    }
  }

  lemma SmallRemainder(a: nat, n: nat)
    requires a < n
    ensures a % n == a
  {
  }

  lemma ShiftRemainder(a: nat, n: nat)
    requires a < n
    ensures (a + n) % n == a
  {
  }

  /** Previous undoes next. */
  lemma PrevOfNext(i: nat, n: nat)
    requires i < n
    ensures Prev(Next(i, n), n) == i
  {
  }

  /** Next undoes previous. */
  lemma NextOfPrev(i: nat, n: nat)
    requires i < n
    ensures Next(Prev(i, n), n) == i
  {
  }

  /** The position reached from `i` by `k` presses of "next". */
  function NextTimes(i: nat, n: nat, k: nat): (r: nat)
    requires i < n
    ensures r < n
  {
    if k == 0 then i else Next(NextTimes(i, n, k - 1), n)
  }

  /** The position reached from `i` by `k` presses of "previous". */
  function PrevTimes(i: nat, n: nat, k: nat): (r: nat)
    requires i < n
    ensures r < n
  {
    if k == 0 then i else Prev(PrevTimes(i, n, k - 1), n)
  }

  /** From `i`, `k <= n` presses of "next" move `k` places forward,
      wrapping past the end of the list once at most. */
  lemma {:induction false} NextTimesIsShift(i: nat, n: nat, k: nat)
    requires i < n && k <= n
    ensures NextTimes(i, n, k) == if i + k < n then i + k else i + k - n
  {
    if k > 0 {
      NextTimesIsShift(i, n, k - 1);
    }
  }

  /** `n` presses of "next" come back to the starting image. */
  lemma FullCycleOfNext(i: nat, n: nat)
    requires i < n
    ensures NextTimes(i, n, n) == i
  {
    NextTimesIsShift(i, n, n);
  }

  /** `k` presses of "previous" undo `k` presses of "next". */
  lemma {:induction false} PrevTimesUndoesNextTimes(i: nat, n: nat, k: nat)
    requires i < n
    ensures PrevTimes(NextTimes(i, n, k), n, k) == i
  {
    if k > 0 {
      var j := NextTimes(i, n, k - 1);
      PrevOfNext(j, n);
      PrevTimesAfterNext(j, n, k - 1);
      PrevTimesUndoesNextTimes(i, n, k - 1);
    }
  }

  lemma {:induction false} PrevTimesAfterNext(j: nat, n: nat, m: nat)
    requires j < n
    ensures PrevTimes(Next(j, n), n, m + 1) == PrevTimes(j, n, m)
  {
    if m == 0 {
      PrevOfNext(j, n);
    } else {
      PrevTimesAfterNext(j, n, m - 1);
    }
  }
}
