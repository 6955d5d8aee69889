/**
 The click-driven image index (main.js `currentIndex`): it starts at 1 and every
 click on the character replaces it with `(currentIndex % maxIndex) + 1`.
 */
module ImageCycle {

  const MaxIndex: int := 8
  const FirstIndex: int := 1

  /**
   JavaScript's `%` for a positive divisor m: the remainder of division truncated
   toward zero, which takes the sign of the dividend.
   */
  function JsRem(a: int, m: int): (r: int)
    requires 0 < m
    ensures 0 <= a ==> 0 <= r < m && r == a % m
    ensures a < 0 ==> -m < r <= 0
  {
    if 0 <= a then a % m else -((-a) % m)
  }

  /** The click handler's update of the index. */
  function NextIndex(k: int): (r: int)
    ensures 1 <= k <= MaxIndex ==> 1 <= r <= MaxIndex
    ensures 1 <= k < MaxIndex ==> r == k + 1
    ensures k == MaxIndex ==> r == 1
  {
    JsRem(k, MaxIndex) + 1
  }

  /** The index after n clicks, starting from k. */
  function Clicks(k: int, n: nat): int
  {
    if n == 0 then k else NextIndex(Clicks(k, n - 1))
  }

  /** From a valid index, n clicks advance it by n positions around the cycle 1..8. */
  lemma {:induction false} ClicksAdvance(k: int, n: nat)
    requires 1 <= k <= MaxIndex
    ensures Clicks(k, n) == (k - 1 + n) % MaxIndex + 1
  {
    if n > 0 {
      ClicksAdvance(k, n - 1);
      var p := (k - 1 + n - 1) % MaxIndex;
      assert Clicks(k, n - 1) == p + 1;
      ModSucc(k - 1 + n - 1);
    }
  }

  /** Stepping x by one steps its remainder modulo 8 by one, wrapping 7 to 0. */
  lemma ModSucc(x: nat)
    ensures (x + 1) % MaxIndex == if x % MaxIndex + 1 < MaxIndex then x % MaxIndex + 1 else 0
  {
    var q, r := x / MaxIndex, x % MaxIndex;
    assert x == MaxIndex * q + r;
    if r + 1 < MaxIndex {
      assert x + 1 == MaxIndex * q + (r + 1);
    } else {
      assert x + 1 == MaxIndex * (q + 1);
    }
  }

  /** The index stays in 1..8 after any number of clicks. */
  lemma ClicksInRange(k: int, n: nat)
    requires 1 <= k <= MaxIndex
    ensures 1 <= Clicks(k, n) <= MaxIndex
  {
    ClicksAdvance(k, n);
  }

  /** Eight clicks return to the starting index, and no fewer do. */
  lemma ClicksPeriod(k: int, n: nat)
    requires 1 <= k <= MaxIndex
    ensures Clicks(k, n) == k <==> n % MaxIndex == 0
  {
    ClicksAdvance(k, n);
    ModShift(k - 1, n);
  }

  lemma ModShift(j: int, n: nat)
    requires 0 <= j < MaxIndex
    ensures (j + n) % MaxIndex == j <==> n % MaxIndex == 0
  {
    assert (j + n) % MaxIndex == (j + n % MaxIndex) % MaxIndex;
  }
}
