/**
 The ripple history of main.js and its mirror in the shader's uniform array.

 `rippleHistory` is a bounded FIFO: every pointer move pushes an impulse and, when the
 history is then longer than `maxRipples` (20), drops the oldest one. After each push
 the history is copied, in order, into the first slots of the 20-slot `uRipples`
 array (initialised with the sentinel (-1, -1, 0)), and `uRippleCount` is set to the
 history length.
 */
module RippleBuffer {
  import opened MinMax

  const MaxRipples: nat := 20

  /** A ripple impulse: normalised position (origin bottom-left) and start time in seconds. */
  datatype Impulse = Impulse(x: real, y: real, t: real)

  /** The value every uniform slot starts with. */
  const Sentinel := Impulse(-1.0, -1.0, 0.0)

  /** The uniform side of the buffer: `uRipples` and `uRippleCount`. */
  datatype RippleState = RippleState(history: seq<Impulse>, slots: seq<Impulse>, count: int)

  /** n copies of the sentinel. */
  function Sentinels(n: nat): (r: seq<Impulse>)
    ensures |r| == n
    ensures forall i :: 0 <= i < n ==> r[i] == Sentinel
  {
    if n == 0 then [] else Sentinels(n - 1) + [Sentinel]
  }

  /** The state before any pointer move. */
  function RippleStart(): RippleState
  {
    RippleState([], Sentinels(MaxRipples), 0)
  }

  /** The last min(|s|, n) elements of s, oldest first: the reference for a bounded FIFO. */
  function LastN<T>(s: seq<T>, n: nat): seq<T>
  {
    s[|s| - MinNat(|s|, n)..]
  }

  /**
   `rippleHistory.push(v)` followed by `shift()` when the length exceeds 20. From a
   history within capacity, the result is the last 20 of the old history with v
   appended; the new impulse is always last.
   */
  function Push(history: seq<Impulse>, v: Impulse): (h: seq<Impulse>)
    ensures |h| > 0 && h[|h| - 1] == v
    ensures |history| <= MaxRipples ==> h == LastN(history + [v], MaxRipples)
    ensures |history| <= MaxRipples ==> |h| == MinNat(|history| + 1, MaxRipples)
  {
    var pushed := history + [v];
    if |pushed| > MaxRipples then pushed[1..] else pushed
  }

  /**
   `rippleHistory.forEach((v, i) => uRipples[i] = v)`: slot i takes history[i] for
   every index of the history, every other slot keeps its value. A JavaScript array
   written past its end grows, so the result is as long as the longer input.
   */
  function Mirror(slots: seq<Impulse>, history: seq<Impulse>): (r: seq<Impulse>)
    ensures |r| == (if |history| <= |slots| then |slots| else |history|)
    ensures forall i :: 0 <= i < |history| ==> r[i] == history[i]
    ensures forall i :: |history| <= i < |slots| ==> r[i] == slots[i]
  {
    if |slots| <= |history| then history else history + slots[|history|..]
  }

  /** The same copy, written as the loop `forEach` runs. */
  method MirrorLoop(slots: seq<Impulse>, history: seq<Impulse>) returns (r: seq<Impulse>)
    ensures r == Mirror(slots, history)
  {
    r := slots;
    var i := 0;
    while i < |history|
      invariant 0 <= i <= |history|
      invariant |r| == (if i <= |slots| then |slots| else i)
      invariant forall j :: 0 <= j < i ==> r[j] == history[j]
      invariant forall j :: i <= j < |slots| ==> r[j] == slots[j]
    {
      if i < |r| {
        r := r[i := history[i]];
      } else {
        r := r + [history[i]];
      }
      i := i + 1;
    }
  }

  /**
   The pointermove handler's effect on the ripple state. From a history within
   capacity, the new history is the last 20 impulses with v appended. The first
   slots mirror it, and the remaining slots keep their values. On a well-formed
   state the result is well formed and the count grows by one, up to 20.
   */
  function OnImpulse(s: RippleState, v: Impulse): (r: RippleState)
    ensures |s.history| <= MaxRipples ==> r.history == LastN(s.history + [v], MaxRipples)
    ensures r.count == |r.history| > 0 && r.history[r.count - 1] == v
    ensures |r.slots| == if r.count <= |s.slots| then |s.slots| else r.count
    ensures forall i :: 0 <= i < r.count ==> r.slots[i] == r.history[i]
    ensures forall i :: r.count <= i < |s.slots| ==> r.slots[i] == s.slots[i]
    ensures Wf(s) ==> Wf(r) && r.count == MinNat(s.count + 1, MaxRipples)
  {
    var h := Push(s.history, v);
    MirrorKeepsWf(s, h);
    RippleState(h, Mirror(s.slots, h), |h|)
  }

  /** Mirroring a history no shorter than the old one, and within capacity, keeps `Wf`. */
  lemma MirrorKeepsWf(s: RippleState, h: seq<Impulse>)
    ensures Wf(s) && |s.history| <= |h| <= MaxRipples ==> Wf(RippleState(h, Mirror(s.slots, h), |h|))
  {
  }

  /**
   The buffer invariant: the history is within capacity, the uniform array has 20
   slots, the count is the history length, the first `count` slots are the history
   in order and every other slot still holds the sentinel.
   */
  predicate Wf(s: RippleState)
  {
    && |s.history| <= MaxRipples
    && |s.slots| == MaxRipples
    && s.count == |s.history|
    && (forall i :: 0 <= i < s.count ==> s.slots[i] == s.history[i])
    && (forall i :: s.count <= i < MaxRipples ==> s.slots[i] == Sentinel)
  }

  lemma RippleStartWf()
    ensures Wf(RippleStart())
  {
  }

  /** The ripple state after a sequence of pointer impulses, from the start. */
  function Feed(events: seq<Impulse>): RippleState
  {
    if |events| == 0 then RippleStart()
    else OnImpulse(Feed(events[..|events| - 1]), events[|events| - 1])
  }

  /** Appending to a sequence and keeping the last n commutes with keeping the last n first. */
  lemma LastNAppend<T>(s: seq<T>, v: T, n: nat)
    requires 0 < n
    ensures LastN(LastN(s, n) + [v], n) == LastN(s + [v], n)
  {
  }

  /**
   After any sequence of pointer impulses the buffer is well formed, holds exactly
   the last min(n, 20) impulses oldest first, and the count says how many.
   */
  lemma {:induction false} FeedKeepsLast(events: seq<Impulse>)
    ensures Wf(Feed(events))
    ensures Feed(events).history == LastN(events, MaxRipples)
    ensures Feed(events).count == MinNat(|events|, MaxRipples)
  {
    if |events| > 0 {
      var init, v := events[..|events| - 1], events[|events| - 1];
      assert events == init + [v];
      FeedKeepsLast(init);
      LastNAppend(init, v, MaxRipples);
    }
  }

  /** What the shader sees after the impulses: the slots hold the recent history, then sentinels. */
  lemma FeedSlots(events: seq<Impulse>, i: int)
    requires 0 <= i < MaxRipples
    ensures var s := Feed(events);
      && |s.slots| == MaxRipples
      && (i < MinNat(|events|, MaxRipples) ==> s.slots[i] == events[|events| - MinNat(|events|, MaxRipples) + i])
      && (MinNat(|events|, MaxRipples) <= i ==> s.slots[i] == Sentinel)
  {
    FeedKeepsLast(events);
    LastSlot(Feed(events), events, i);
  }

  /** One slot of a well-formed state whose history is the last impulses of `events`. */
  lemma LastSlot(s: RippleState, events: seq<Impulse>, i: int)
    requires Wf(s) && 0 <= i < MaxRipples
    requires s.history == LastN(events, MaxRipples)
    ensures |s.slots| == MaxRipples
    ensures i < MinNat(|events|, MaxRipples) ==> s.slots[i] == events[|events| - MinNat(|events|, MaxRipples) + i]
    ensures MinNat(|events|, MaxRipples) <= i ==> s.slots[i] == Sentinel
  {
  }
}
