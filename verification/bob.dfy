/**
 The character's vertical bob (main.js `animatePerson`). Each animation tick adds
 `dir * 0.15` pixels to the offset `dy`; when the new offset is above 20 or below 0
 the direction is reversed. The element is drawn `dy` pixels below its resting top.
 */
module Bob {

  const Speed: real := 0.15
  const Upper: real := 20.0
  const Lower: real := 0.0

  datatype BobState = BobState(dir: int, dy: real)

  /** `let dir = 1, dy = 0`. */
  const BobStart := BobState(1, 0.0)

  /**
   One tick of `animatePerson`. The offset moves one step in the current direction
   (down the page while `dir = 1`, up while `dir = -1`),
   and the direction reverses exactly when the new offset has left [0, 20]. The
   tick keeps the invariant `BobInv`.
   */
  function BobStep(s: BobState): (r: BobState)
    ensures s.dir == 1 ==> r.dy == s.dy + Speed
    ensures s.dir == -1 ==> r.dy == s.dy - Speed
    ensures r.dir == s.dir || r.dir == -s.dir
    ensures s.dir != 0 ==> (r.dir != s.dir <==> !(Lower <= r.dy <= Upper))
    ensures BobInv(s) ==> BobInv(r)
  {
    var dy := s.dy + (s.dir as real) * Speed;
    if dy > Upper || dy < Lower then BobState(-s.dir, dy) else BobState(s.dir, dy)
  }

  function BobIter(s: BobState, n: nat): BobState
  {
    if n == 0 then s else BobStep(BobIter(s, n - 1))
  }

  /**
   The inductive invariant of the bob: the direction is a unit, the offset stays in
   [-0.15, 20.15], and the offset is at most 20 while moving down the page and at
   least 0 while moving up.
   */
  predicate BobInv(s: BobState)
  {
    && (s.dir == 1 || s.dir == -1)
    && Lower - Speed <= s.dy <= Upper + Speed
    && (s.dir == 1 ==> s.dy <= Upper)
    && (s.dir == -1 ==> s.dy >= Lower)
  }

  /** Every state reached by ticks from a state satisfying `BobInv` satisfies it too. */
  lemma {:induction false} BobIterPreservesInv(s: BobState, n: nat)
    requires BobInv(s)
    ensures BobInv(BobIter(s, n))
    ensures -0.15 <= BobIter(s, n).dy <= 20.15
  {
    if n > 0 {
      BobIterPreservesInv(s, n - 1);
    }
  }

  /** The drawn top of the character: its resting top plus the bob offset. */
  function PersonTop(initTop: real, s: BobState): (top: real)
    requires BobInv(s)
    ensures initTop - 0.15 <= top <= initTop + 20.15
  {
    initTop + s.dy
  }

  /*
   An exact integer picture of the bob: the offset is always a whole number k of
   0.15-pixel steps, and the reversal tests `dy > 20`, `dy < 0` become k > 133 and
   k < 0 (0.15 * 133 = 19.95 and 0.15 * 134 = 20.1).
   */

  datatype TickState = TickState(dir: int, k: int)

  const TickStart := TickState(1, 0)

  function TickStep(t: TickState): TickState
  {
    var k := t.k + t.dir;
    if k > 133 || k < 0 then TickState(-t.dir, k) else TickState(t.dir, k)
  }

  function TickIter(t: TickState, n: nat): TickState
  {
    if n == 0 then t else TickStep(TickIter(t, n - 1))
  }

  /** The real state s is pictured by the tick state t. */
  predicate Pictures(t: TickState, s: BobState)
  {
    s.dir == t.dir && s.dy == Speed * (t.k as real)
  }

  lemma TickStepPictures(t: TickState, s: BobState)
    requires Pictures(t, s)
    requires t.dir == 1 || t.dir == -1
    ensures Pictures(TickStep(t), BobStep(s))
  {
    var k := t.k + t.dir;
    assert s.dy + (s.dir as real) * Speed == Speed * (k as real);
    assert Speed * (k as real) > Upper <==> k > 133;
  }

  predicate TickInv(t: TickState)
  {
    && (t.dir == 1 || t.dir == -1)
    && -1 <= t.k <= 134
    && (t.dir == 1 ==> t.k <= 133)
    && (t.dir == -1 ==> t.k >= 0)
  }

  /** Stepping the two pictures together keeps them in step, n ticks later too. */
  lemma {:induction false} TickIterPictures(t: TickState, s: BobState, n: nat)
    requires Pictures(t, s) && TickInv(t)
    ensures Pictures(TickIter(t, n), BobIter(s, n)) && TickInv(TickIter(t, n))
  {
    if n > 0 {
      TickIterPictures(t, s, n - 1);
      TickStepPictures(TickIter(t, n - 1), BobIter(s, n - 1));
    }
  }

  /** The exact range of the bob from its start: dy is in [-0.15, 20.1]. */
  lemma BobExactRange(n: nat)
    ensures -0.15 <= BobIter(BobStart, n).dy <= 20.1
  {
    TickIterPictures(TickStart, BobStart, n);
  }

  lemma {:induction false} TickIterAdd(t: TickState, a: nat, b: nat)
    ensures TickIter(t, a + b) == TickIter(TickIter(t, a), b)
  {
    if b > 0 {
      TickIterAdd(t, a, b - 1);
    }
  }

  /** Moving down the page, j ticks from k add j while k + j stays at most 133. */
  lemma {:induction false} TickDescend(k: int, j: nat)
    requires -1 <= k && k + j <= 133
    ensures TickIter(TickState(1, k), j) == TickState(1, k + j)
  {
    if j > 0 {
      TickDescend(k, j - 1);
    }
  }

  /** Moving up the page, j ticks from k subtract j while k - j stays at least 0. */
  lemma {:induction false} TickAscend(k: int, j: nat)
    requires k <= 134 && 0 <= k - j
    ensures TickIter(TickState(-1, k), j) == TickState(-1, k - j)
  {
    if j > 0 {
      TickAscend(k, j - 1);
    }
  }

  /**
   The integer picture is periodic: 134 ticks down the page to k = 134, where the
   direction flips, 134 ticks back up to k = 0, one tick to k = -1, where it flips
   again, and one tick back to the start.
   */
  lemma TickPeriod()
    ensures TickIter(TickStart, 270) == TickStart
  {
    TickDownPhase();
    TickUpPhase();
    TickTurn();
    TickIterAdd(TickStart, 134, 134);
    TickIterAdd(TickStart, 268, 2);
  }

  /** 134 ticks from the start reach k = 134, where the direction flips. */
  lemma TickDownPhase()
    ensures TickIter(TickStart, 134) == TickState(-1, 134)
  {
    TickDescend(0, 133);
    TickIterAdd(TickStart, 133, 1);
  }

  /** 134 ticks up the page from k = 134 reach k = 0. */
  lemma TickUpPhase()
    ensures TickIter(TickState(-1, 134), 134) == TickState(-1, 0)
  {
    TickAscend(134, 134);
  }

  /** From k = 0 moving up, one tick to k = -1 flips the direction, and one more returns to the start. */
  lemma TickTurn()
    ensures TickIter(TickState(-1, 0), 2) == TickStart
  {
  }

  /** The bob is periodic: 270 ticks bring it back to its starting state. */
  lemma BobPeriod()
    ensures BobIter(BobStart, 270) == BobStart
  {
    TickPeriod();
    TickIterPictures(TickStart, BobStart, 270);
    assert Pictures(TickStart, BobIter(BobStart, 270));
  }
}
