/**
  The LATCH block of main.py (lines 159-171): a per-label counter map, an
  optional latched label and the time it was latched. The frame's winner and
  the current time are inputs; the clock itself is not modelled.
 */
module Latch {
  import opened Options
  import opened Gestures

  /** Frames a winner must accumulate before it latches. */
  const FrameConfirm: nat := 10

  /** Seconds a latched label is held; expiry needs strictly more. */
  const LatchDuration: real := 2.5

  datatype State = State(buffer: map<Gesture, nat>, latched: Option<Gesture>, latchStart: real)

  /** The state before the first frame. */
  const Init: State := State(map[], None, 0.0)

  /** `gesture_buffer.get(g, 0)`. */
  function Count(buffer: map<Gesture, nat>, g: Gesture): nat {
    if g in buffer then buffer[g] else 0
  }

  /** The invariant the state machine keeps: a latched state has an empty
      buffer, and no count ever rests at zero or at FrameConfirm or above. */
  predicate Inv(s: State) {
    && (s.latched.Some? ==> s.buffer == map[])
    && forall g :: g in s.buffer ==> 0 < s.buffer[g] < FrameConfirm
  }

  /** One pass through the LATCH block with the frame's winner. */
  function Step(s: State, winner: Option<Gesture>, now: real): (r: State)
    // while latched the winner is ignored and only expiry can happen
    ensures s.latched.Some? ==> r.buffer == s.buffer && r.latchStart == s.latchStart
    ensures s.latched.Some? ==> (r.latched.None? <==> now - s.latchStart > LatchDuration)
    ensures s.latched.Some? && r.latched.Some? ==> r.latched == s.latched
    // unlatched with no winner: everything counted so far is forgotten
    ensures s.latched.None? && winner.None? ==> r == State(map[], None, s.latchStart)
    // unlatched with winner W: W latches exactly when its count reaches FrameConfirm
    ensures s.latched.None? && winner.Some? ==>
      (r.latched.Some? <==> Count(s.buffer, winner.value) + 1 >= FrameConfirm)
    ensures s.latched.None? && r.latched.Some? ==> r == State(map[], winner, now)
    // otherwise only W's count moves, by one
    ensures s.latched.None? && winner.Some? && r.latched.None? ==>
      && r.latchStart == s.latchStart
      && Count(r.buffer, winner.value) == Count(s.buffer, winner.value) + 1
      && forall g :: g != winner.value ==> Count(r.buffer, g) == Count(s.buffer, g)
    ensures r.buffer.Keys <= s.buffer.Keys + (if winner.Some? then {winner.value} else {})
    ensures r.latched.Some? ==> r.latched == s.latched || r.latched == winner
    ensures Inv(s) ==> Inv(r)
  {
    if s.latched.None? then
      var buffer := if winner.Some? then s.buffer[winner.value := Count(s.buffer, winner.value) + 1] else map[];
      if winner.Some? && Count(buffer, winner.value) >= FrameConfirm then
        State(map[], winner, now)
      else
        State(buffer, None, s.latchStart)
    else if now - s.latchStart > LatchDuration then
      s.(latched := None)
    else
      s
  }

  /** One frame's input to the state machine: its winner and the time. */
  datatype Tick = Tick(winner: Option<Gesture>, now: real)

  /** The state after a sequence of frames, in order. */
  function Run(s: State, ticks: seq<Tick>): (r: State)
    ensures Inv(s) ==> Inv(r)
    decreases |ticks|
  {
    if |ticks| == 0 then
      s
    else
      var t := ticks[|ticks| - 1];
      Step(Run(s, ticks[..|ticks| - 1]), t.winner, t.now)
  }

  /** Running ticks one after another is running their concatenation. */
  lemma {:induction false} RunAppend(s: State, ticks: seq<Tick>, t: Tick)
    ensures Run(s, ticks + [t]) == Step(Run(s, ticks), t.winner, t.now)
  {
    assert (ticks + [t])[..|ticks|] == ticks;
  }

  /** Running two sequences one after the other is running their
      concatenation. */
  lemma {:induction false} RunConcat(s: State, a: seq<Tick>, b: seq<Tick>)
    ensures Run(s, a + b) == Run(Run(s, a), b)
    decreases |b|
  {
    if |b| > 0 {
      var n := |b| - 1;
      RunConcat(s, a, b[..n]);
      assert (a + b)[..|a + b| - 1] == a + b[..n];
      assert (a + b)[|a + b| - 1] == b[n];
    } else {
      assert a + b == a;
    }
  }

  /** The state before the first frame keeps the invariant. */
  lemma Initial()
    ensures Inv(Init)
  {
  }

  /** Latch expiry leaves exactly the unlatched state with an empty buffer. */
  lemma ExpiryReleases(s: State, winner: Option<Gesture>, now: real)
    requires Inv(s) && s.latched.Some?
    requires now - s.latchStart > LatchDuration
    ensures Step(s, winner, now) == State(map[], None, s.latchStart)
  {
  }

  /** While latched and not yet expired, frames change nothing, whatever
      their winners. */
  lemma {:induction false} HeldWhileLatched(s: State, ticks: seq<Tick>)
    requires s.latched.Some?
    requires forall i :: 0 <= i < |ticks| ==> ticks[i].now - s.latchStart <= LatchDuration
    ensures Run(s, ticks) == s
    decreases |ticks|
  {
    if |ticks| > 0 {
      HeldWhileLatched(s, ticks[..|ticks| - 1]);
    }
  }

  /** Every tick has winner w. */
  predicate AllWin(ticks: seq<Tick>, w: Gesture) {
    forall i :: 0 <= i < |ticks| ==> ticks[i].winner == Some(w)
  }

  /** Below the threshold, each frame won by w adds one to w's count and leaves
      every other count and the latch alone. */
  lemma {:induction false} Accumulates(s: State, ticks: seq<Tick>, w: Gesture)
    requires s.latched.None?
    requires AllWin(ticks, w)
    requires Count(s.buffer, w) + |ticks| < FrameConfirm
    ensures Run(s, ticks).latched.None?
    ensures Run(s, ticks).latchStart == s.latchStart
    ensures Count(Run(s, ticks).buffer, w) == Count(s.buffer, w) + |ticks|
    ensures forall g :: g != w ==> Count(Run(s, ticks).buffer, g) == Count(s.buffer, g)
    decreases |ticks|
  {
    if |ticks| > 0 {
      Accumulates(s, ticks[..|ticks| - 1], w);
    }
  }

  /** The frame that brings w's count to FrameConfirm latches w at that
      frame's time and empties the buffer. */
  lemma {:induction false} LatchesOnConfirm(s: State, ticks: seq<Tick>, w: Gesture)
    requires s.latched.None?
    requires AllWin(ticks, w)
    requires |ticks| > 0 && Count(s.buffer, w) + |ticks| == FrameConfirm
    ensures Run(s, ticks) == State(map[], Some(w), ticks[|ticks| - 1].now)
  {
    Accumulates(s, ticks[..|ticks| - 1], w);
  }

  /** From the initial state, FrameConfirm frames won by w latch w on the last
      of them and not before. */
  lemma ConfirmFromInit(ticks: seq<Tick>, w: Gesture)
    requires AllWin(ticks, w) && |ticks| == FrameConfirm
    ensures Run(Init, ticks) == State(map[], Some(w), ticks[FrameConfirm - 1].now)
    ensures forall k :: 0 <= k < FrameConfirm ==> Run(Init, ticks[..k]).latched.None?
  {
    LatchesOnConfirm(Init, ticks, w);
    forall k | 0 <= k < FrameConfirm
      ensures Run(Init, ticks[..k]).latched.None?
    {
      Accumulates(Init, ticks[..k], w);
    }
  }

  /** Winners alternate between w (first) and none. */
  predicate AlternatesWithNone(ticks: seq<Tick>, w: Gesture) {
    forall i :: 0 <= i < |ticks| ==> ticks[i].winner == (if i % 2 == 0 then Some(w) else None)
  }

  /** A winner that keeps being interrupted by frames with no winner never
      latches: its count never exceeds one. */
  lemma {:induction false} InterruptedNeverLatches(ticks: seq<Tick>, w: Gesture)
    requires AlternatesWithNone(ticks, w)
    ensures Run(Init, ticks).latched.None?
    ensures Run(Init, ticks).buffer == if |ticks| % 2 == 1 then map[w := 1] else map[]
    decreases |ticks|
  {
    if |ticks| > 0 {
      InterruptedNeverLatches(ticks[..|ticks| - 1], w);
    }
  }

  /** Winners alternate between w (first) and another label v. */
  predicate Alternates(ticks: seq<Tick>, w: Gesture, v: Gesture) {
    forall i :: 0 <= i < |ticks| ==> ticks[i].winner == (if i % 2 == 0 then Some(w) else Some(v))
  }

  /** A change of winner does not reset the buffer: alternating winners both
      keep counting, so w, v, w, v, ... latches w on the (2 * FrameConfirm - 1)th
      frame although w never won two frames in a row. */
  lemma {:induction false} AlternatingWinnersAccumulate(ticks: seq<Tick>, w: Gesture, v: Gesture)
    requires w != v && Alternates(ticks, w, v)
    requires |ticks| < 2 * FrameConfirm - 1
    ensures Run(Init, ticks).latched.None?
    ensures Count(Run(Init, ticks).buffer, w) == (|ticks| + 1) / 2
    ensures Count(Run(Init, ticks).buffer, v) == |ticks| / 2
    decreases |ticks|
  {
    if |ticks| > 0 {
      var n := |ticks| - 1;
      var prefix := ticks[..n];
      assert Alternates(prefix, w, v) by {
        forall i | 0 <= i < n ensures prefix[i] == ticks[i] { }
      }
      AlternatingWinnersAccumulate(prefix, w, v);
      RunAppend(Init, prefix, ticks[n]);
      assert prefix + [ticks[n]] == ticks;
      AlternatingStep(Run(Init, prefix), n, ticks[n], w, v);
    }
  }

  /** One frame of the alternation: after n frames w has won ceil(n / 2) of
      them and v floor(n / 2). */
  lemma AlternatingStep(s: State, n: nat, t: Tick, w: Gesture, v: Gesture)
    requires w != v && n + 1 < 2 * FrameConfirm - 1
    requires s.latched.None?
    requires Count(s.buffer, w) == (n + 1) / 2 && Count(s.buffer, v) == n / 2
    requires t.winner == if n % 2 == 0 then Some(w) else Some(v)
    ensures Step(s, t.winner, t.now).latched.None?
    ensures Count(Step(s, t.winner, t.now).buffer, w) == (n + 2) / 2
    ensures Count(Step(s, t.winner, t.now).buffer, v) == (n + 1) / 2
  {
  }

  /** Alternating winners w, v, w, ... latch w on the (2 * FrameConfirm - 1)th
      frame, when its count reaches FrameConfirm. */
  lemma AlternatingWinnersLatch(ticks: seq<Tick>, w: Gesture, v: Gesture)
    requires w != v && Alternates(ticks, w, v)
    requires |ticks| == 2 * FrameConfirm - 1
    ensures Run(Init, ticks) == State(map[], Some(w), ticks[|ticks| - 1].now)
  {
    AlternatingWinnersAccumulate(ticks[..|ticks| - 1], w, v);
  }

  /** A latched label is held through every frame up to its expiry; the
      frame that expires it is ignored, and FrameConfirm frames won by w
      afterwards latch w. */
  lemma ReleaseThenConfirm(s: State, held: seq<Tick>, release: Tick, confirm: seq<Tick>, w: Gesture)
    requires Inv(s) && s.latched.Some?
    requires forall i :: 0 <= i < |held| ==> held[i].now - s.latchStart <= LatchDuration
    requires release.now - s.latchStart > LatchDuration
    requires AllWin(confirm, w) && |confirm| == FrameConfirm
    ensures Run(s, held + [release] + confirm) == State(map[], Some(w), confirm[FrameConfirm - 1].now)
  {
    HeldWhileLatched(s, held);
    RunAppend(s, held, release);
    RunConcat(s, held + [release], confirm);
    var released := State(map[], None, s.latchStart);
    LatchesOnConfirm(released, confirm, w);
  }
}
