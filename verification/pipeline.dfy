/**
  One pass of the main loop of main.py from landmarks to the latch state
  (lines 66-171): extract features, detect, arbitrate, update the latch.
  A frame without a face leaves the loop body early (line 80), before the
  latch block.
 */
module Pipeline {
  import opened Options
  import opened Gestures
  import opened Features
  import opened Detector
  import opened Arbiter
  import opened Latch

  /** A frame's landmarks and the time it was read. */
  datatype Input = Input(frame: Frame, now: real)

  /** The arbitration winner of a frame with a face: a label whose rule
      fired, ranked no lower than any other that fired, or none when no rule
      fired. A winner always has a display image. */
  function Winner(fs: FeatureSet): (r: Option<Gesture>)
    ensures r.Some? ==> Fires(fs, r.value) && HasImage(r.value)
    ensures r.Some? ==> forall g :: Fires(fs, g) ==> Rank(r.value) <= Rank(g)
    ensures r.None? <==> forall g :: !Fires(fs, g)
  {
    var d := Detect(fs);
    var r := Arbitrate(d);
    if r.Some? then
      HasImageIffNotInert(r.value);
      r
    else
      assert forall g :: g !in d;
      r
  }

  /** Every state the loop can reach: the latch invariant holds, and every
      label latched or counted has a display image. */
  predicate Reachable(s: State) {
    && Inv(s)
    && (s.latched.Some? ==> HasImage(s.latched.value))
    && forall g :: g in s.buffer ==> HasImage(g)
  }

  /** What the latch block sees of a frame: its winner and time, or nothing
      when the frame has no face (the loop body is left before the latch). */
  function Observe(input: Input): (o: Option<Tick>)
    ensures o.None? <==> |input.frame.faces| == 0
    ensures o.Some? ==> o.value == Tick(Winner(Extract(input.frame).value), input.now)
  {
    match Extract(input.frame)
    case None => None
    case Some(fs) => Some(Tick(Winner(fs), input.now))
  }

  /** One iteration of the main loop. */
  function ProcessFrame(s: State, input: Input): (r: State)
    ensures |input.frame.faces| == 0 ==> r == s
    ensures Reachable(s) ==> Reachable(r)
  {
    match Observe(input)
    case None => s
    case Some(t) => Step(s, t.winner, t.now)
  }

  /** What the latch block sees of each frame, in order. */
  function Observations(inputs: seq<Input>): (obs: seq<Option<Tick>>)
    ensures |obs| == |inputs|
    ensures forall i :: 0 <= i < |inputs| ==> obs[i] == Observe(inputs[i])
  {
    seq(|inputs|, i requires 0 <= i < |inputs| => Observe(inputs[i]))
  }

  /** A tick whose winner, if any, has a display image. */
  predicate TickShown(t: Tick) {
    t.winner.Some? ==> HasImage(t.winner.value)
  }

  /** The latch block run over a sequence of observations: a frame without a
      face (None) leaves the state as it is. */
  function Feed(s: State, obs: seq<Option<Tick>>): (r: State)
    ensures Reachable(s) && (forall i :: 0 <= i < |obs| && obs[i].Some? ==> TickShown(obs[i].value))
      ==> Reachable(r)
    decreases |obs|
  {
    if |obs| == 0 then
      s
    else
      var before := Feed(s, obs[..|obs| - 1]);
      match obs[|obs| - 1]
      case None => before
      case Some(t) => Step(before, t.winner, t.now)
  }

  /** The ticks among the observations, in order: frames without a face are
      dropped. */
  function Present(obs: seq<Option<Tick>>): (ts: seq<Tick>)
    ensures |ts| <= |obs|
    ensures forall t :: t in ts <==> Some(t) in obs
    decreases |obs|
  {
    if |obs| == 0 then
      []
    else
      var before := Present(obs[..|obs| - 1]);
      match obs[|obs| - 1]
      case None => before
      case Some(t) => before + [t]
  }

  /** The main loop over a sequence of frames. */
  function RunFrames(s: State, inputs: seq<Input>): (r: State)
    ensures Reachable(s) ==> Reachable(r)
  {
    var obs := Observations(inputs);
    assert forall i :: 0 <= i < |obs| && obs[i].Some? ==> TickShown(obs[i].value);
    Feed(s, obs)
  }

  /** The loop over frames processes one more frame as ProcessFrame does. */
  lemma RunFramesStep(s: State, inputs: seq<Input>, input: Input)
    ensures RunFrames(s, inputs + [input]) == ProcessFrame(RunFrames(s, inputs), input)
  {
    var obs := Observations(inputs + [input]);
    assert obs[..|inputs|] == Observations(inputs);
  }

  /** Feeding observations is running the state machine over the ticks among
      them: observations without a face are exactly skipped. */
  lemma {:induction false} FeedIsRun(s: State, obs: seq<Option<Tick>>)
    ensures Feed(s, obs) == Run(s, Present(obs))
    decreases |obs|
  {
    if |obs| > 0 {
      var prefix := obs[..|obs| - 1];
      FeedIsRun(s, prefix);
      match obs[|obs| - 1]
      case None =>
      case Some(t) =>
        RunAppend(s, Present(prefix), t);
    }
  }

  /** Running the loop over frames is running the state machine over the
      ticks of the frames with a face. */
  lemma FramesAreTicks(s: State, inputs: seq<Input>)
    ensures RunFrames(s, inputs) == Run(s, Present(Observations(inputs)))
  {
    FeedIsRun(s, Observations(inputs));
  }

  /** When every observation is a tick, Present keeps them all, in order. */
  lemma {:induction false} PresentOfTicks(obs: seq<Option<Tick>>)
    requires forall i :: 0 <= i < |obs| ==> obs[i].Some?
    ensures |Present(obs)| == |obs|
    ensures forall i :: 0 <= i < |obs| ==> Some(Present(obs)[i]) == obs[i]
    decreases |obs|
  {
    if |obs| > 0 {
      var prefix := obs[..|obs| - 1];
      PresentOfTicks(prefix);
    }
  }

  /** A frame without a face changes no state, not even an expired latch. */
  lemma FacelessFrameSkipped(s: State, inputs: seq<Input>, input: Input)
    requires |input.frame.faces| == 0
    ensures RunFrames(s, inputs + [input]) == RunFrames(s, inputs)
  {
    RunFramesStep(s, inputs, input);
  }

  /** Whatever the frames, the latched label can be looked up in IMAGES. */
  lemma DisplayLookupDefined(inputs: seq<Input>)
    ensures RunFrames(Init, inputs).latched.Some? ==>
      Label(RunFrames(Init, inputs).latched.value) in ImageKeys
  {
    Initial();
  }

  /** angry and devious never win, so they never latch. */
  lemma InertLabelsNeverWin(fs: FeatureSet)
    ensures Winner(fs) != Some(Angry) && Winner(fs) != Some(Devious)
  {
  }

  /** The detected list is already in priority order, so the winner is its
      first element. */
  lemma WinnerIsFirstDetected(fs: FeatureSet)
    ensures Winner(fs) == if |Detect(fs)| == 0 then None else Some(Detect(fs)[0])
  {
    WinnerIsHead(Detect(fs));
  }

  /** Whenever shock is detected, Absolute Cinema is detected too, and shock
      wins. */
  lemma ShockOutranksCinema(fs: FeatureSet)
    ensures Shock in Detect(fs) ==> AbsoluteCinema in Detect(fs) && Winner(fs) == Some(Shock)
  {
  }

  /** lemme know is detected only on frames with no hand at all. */
  lemma LemmeKnowNeedsNoHands(frame: Frame)
    requires |frame.faces| > 0
    ensures LemmeKnow in Detect(Extract(frame).value) ==> |frame.hands| == 0
  {
  }

  /** A face mesh whose every landmark is at the origin except the forehead,
      at height y. */
  function FaceWithForeheadAt(y: real): Face {
    seq(RightLidTop + 1, i => Point(0.0, if i == Forehead then y else 0.0))
  }

  /** A hand whose every landmark is at the origin except the palm centre, at
      height y. */
  function HandWithPalmAt(y: real): Hand {
    seq(PinkyTip + 1, i => Point(0.0, if i == Palm then y else 0.0))
  }

  /** The shock and Absolute Cinema rules are looser than the comments above
      them (both hands behind the head; hands together): one palm above the
      forehead is enough for shock, and two hands far apart give Absolute
      Cinema. */
  lemma OneRaisedPalmApartHands()
    ensures var frame := Frame([FaceWithForeheadAt(0.5)], [HandWithPalmAt(0.1), HandWithPalmAt(0.9)]);
      && !AboveForehead(frame.hands[1], frame.faces[0])
      && !Extract(frame).value.handsClose
      && Shock in Detect(Extract(frame).value)
      && AbsoluteCinema in Detect(Extract(frame).value)
  {
    var face := FaceWithForeheadAt(0.5);
    var hands := [HandWithPalmAt(0.1), HandWithPalmAt(0.9)];
    assert face[Forehead].y == 0.5;
    assert hands[0][Palm] == Point(0.0, 0.1) && hands[1][Palm] == Point(0.0, 0.9);
    assert AboveForehead(hands[0], face);
  }

  /** thumb is detected exactly when a single hand has its thumb up, so zero
      or two thumbs-up hands never give thumb. */
  lemma ThumbIffExactlyOne(frame: Frame)
    requires |frame.faces| > 0
    ensures Thumb in Detect(Extract(frame).value) <==> ExactlyOneThumbUp(frame.hands)
  {
    ThumbsUpOneIffExactlyOne(frame.hands);
  }

  /** The signals no rule reads do not change the winner. */
  lemma UnusedSignalsKeepWinner(a: FeatureSet, b: FeatureSet)
    requires SameRuleInputs(a, b)
    ensures Winner(a) == Winner(b)
  {
    UnusedSignalsIgnored(a, b);
  }

  /** FrameConfirm observations, each a tick won by w, latch w on the last
      of them and not before. */
  lemma FeedConfirm(obs: seq<Option<Tick>>, w: Gesture)
    requires |obs| == FrameConfirm
    requires forall i :: 0 <= i < |obs| ==> obs[i].Some? && obs[i].value.winner == Some(w)
    ensures Feed(Init, obs) == State(map[], Some(w), obs[FrameConfirm - 1].value.now)
    ensures forall k :: 0 <= k < FrameConfirm ==> Feed(Init, obs[..k]).latched.None?
  {
    var ts := Present(obs);
    PresentOfTicks(obs);
    FeedIsRun(Init, obs);
    ConfirmFromInit(ts, w);
    forall k | 0 <= k < FrameConfirm
      ensures Feed(Init, obs[..k]).latched.None?
    {
      PresentOfTicks(obs[..k]);
      assert Present(obs[..k]) == ts[..k];
      FeedIsRun(Init, obs[..k]);
    }
  }

  /** Every frame has a face. */
  predicate AllHaveFace(inputs: seq<Input>) {
    forall i :: 0 <= i < |inputs| ==> |inputs[i].frame.faces| > 0
  }

  /** The observations of a prefix of the frames are a prefix of their
      observations. */
  lemma ObservationsOfPrefix(inputs: seq<Input>, k: nat)
    requires k <= |inputs|
    ensures Observations(inputs[..k]) == Observations(inputs)[..k]
  {
  }

  /** FrameConfirm frames with a face, each won by w, latch w on the last of
      them and not before. */
  lemma SustainedWinnerLatches(inputs: seq<Input>, w: Gesture)
    requires AllHaveFace(inputs) && |inputs| == FrameConfirm
    requires forall i :: 0 <= i < |inputs| ==> Winner(Extract(inputs[i].frame).value) == Some(w)
    ensures RunFrames(Init, inputs) == State(map[], Some(w), inputs[FrameConfirm - 1].now)
    ensures forall k :: 0 <= k < FrameConfirm ==> RunFrames(Init, inputs[..k]).latched.None?
  {
    var obs := Observations(inputs);
    assert forall i :: 0 <= i < |obs| ==> obs[i].Some? && obs[i].value.winner == Some(w);
    FeedConfirm(obs, w);
    forall k | 0 <= k < FrameConfirm
      ensures RunFrames(Init, inputs[..k]).latched.None?
    {
      ObservationsOfPrefix(inputs, k);
    }
  }
}
