/**
 The application's state and the operations that change it: one detection
 cycle over the detector's result, the two toggles, and the background colour
 derived from the dominant expression.
 */
module Session {
  import opened Optional
  import opened Ranking
  import opened Overlay

  /** The video element as the cycle sees it: its ready state and its frame size. */
  datatype Video = Video(readyState: int, videoWidth: nat, videoHeight: nat)

  /** The media ready state meaning enough data is available to analyse frames. */
  const HaveEnoughData: int := 4

  /**
   The application's state: the two flags the buttons toggle, the face count
   and dominant expression shown to the user, and the overlay canvas.
   */
  datatype State = State(
    isDetecting: bool,
    detectExpressions: bool,
    faceCount: nat,
    expression: Option<string>,
    canvas: Canvas)

  /** The state at start-up: detection off, expression mode on, nothing found, a blank 300 by 150 canvas. */
  const Init: State := State(false, true, 0, None, Canvas(300, 150, []))

  /** The video element exists and has enough data for a frame to be analysed. */
  predicate Ready(video: Option<Video>)
  {
    video.Some? && video.value.readyState == HaveEnoughData
  }

  /**
   One detection cycle. `video` is the video element when the cycle starts,
   `ds` the detector's result, and `width` by `height` the video's frame size
   read once the detector has answered. If the video is missing or not ready
   nothing changes. Otherwise the canvas is resized and repainted, the face
   count becomes the number of faces, and, unless painting stopped at a face
   without scores, the dominant expression becomes the first face's top
   expression when expression mode is on and a face was found, and absent
   otherwise.
   */
  function Step(video: Option<Video>, ds: seq<Detection>, width: nat, height: nat,
                measure: Measure, s: State): (r: State)
    ensures !Ready(video) ==> r == s
    ensures Ready(video) ==>
              && r.faceCount == |ds|
              && r.isDetecting == s.isDetecting
              && r.detectExpressions == s.detectExpressions
              && r.canvas.width == width && r.canvas.height == height
              && |r.canvas.ops| == 1 + 3 * DrawnCount(ds)
              && r.canvas.ops[0] == ClearRect(0.0, 0.0, width as real, height as real)
    ensures Ready(video) && AllLabelled(ds) ==>
              (r.expression.Some? <==> s.detectExpressions && |ds| > 0)
    ensures Ready(video) && AllLabelled(ds) && s.detectExpressions && |ds| > 0 ==>
              r.expression == Some(ds[0].expressions[FirstMaxIndex(ds[0].expressions)].expression)
    ensures Ready(video) && AllLabelled(ds) && r.expression.Some? ==>
              && r.canvas.ops[3].FillText?
              && r.canvas.ops[3].text.expression == r.expression.value
              && r.expression.value in (set e | e in ds[0].expressions :: e.expression)
    ensures Ready(video) && !AllLabelled(ds) ==> r.expression == s.expression
  {
    AllDrawn(ds);
    if !Ready(video) then s
    else
      var painted := s.(faceCount := |ds|, canvas := Render(width, height, ds, measure));
      if !AllLabelled(ds) then
        // the loop over the faces throws before the dominant expression is set
        painted
      else if s.detectExpressions && |ds| > 0 then
        RenderGeometry(width, height, ds, measure, 0);
        painted.(expression := Some(Top(ds[0].expressions).expression))
      else
        painted.(expression := None)
  }

  /**
   A cycle on a ready video leaves nothing of the canvas before it: the canvas
   it leaves is the same whatever the state before it, also when painting
   stops at a face without scores.
   */
  lemma {:induction false} CycleForgetsCanvas(video: Option<Video>, ds: seq<Detection>, width: nat, height: nat,
                             measure: Measure, s1: State, s2: State)
    requires Ready(video)
    ensures Step(video, ds, width, height, measure, s1).canvas == Step(video, ds, width, height, measure, s2).canvas
  {
  }

  /**
   When every face has scores, a cycle repaints the whole overlay: one clear
   of the whole canvas followed by the box, tag and text of each face, in
   detection order.
   */
  lemma {:induction false} CycleReplacesOverlay(video: Option<Video>, ds: seq<Detection>, width: nat, height: nat,
                             measure: Measure, s: State)
    requires Ready(video)
    requires AllLabelled(ds)
    ensures var ops := Step(video, ds, width, height, measure, s).canvas.ops;
            && |ops| == 1 + 3 * |ds|
            && ops[0] == ClearRect(0.0, 0.0, width as real, height as real)
            && forall i :: 0 <= i < |ds| ==> ops[1 + 3 * i..4 + 3 * i] == Mark(Faces(ds)[i], FontAt(i, CanvasDefault), measure)
  {
  }

  /**
   A cycle does not consult the detection flag: a cycle that completes after
   detection was switched off still writes its result.
   */
  lemma {:induction false} CycleIgnoresDetectingFlag(video: Option<Video>, ds: seq<Detection>, width: nat, height: nat,
                                  measure: Measure, s: State, detecting: bool)
    ensures Step(video, ds, width, height, measure, s.(isDetecting := detecting))
            == Step(video, ds, width, height, measure, s).(isDetecting := detecting)
  {
  }

  /** The detection button: flips whether detection runs and nothing else. */
  function ToggleDetection(s: State): (r: State)
    ensures r.isDetecting != s.isDetecting
    ensures r.(isDetecting := s.isDetecting) == s
  {
    s.(isDetecting := !s.isDetecting)
  }

  /**
   The expression button: flips expression mode and nothing else; in
   particular the dominant expression shown stays until the next cycle.
   */
  function ToggleExpressions(s: State): (r: State)
    ensures r.detectExpressions != s.detectExpressions
    ensures r.(detectExpressions := s.detectExpressions) == s
  {
    s.(detectExpressions := !s.detectExpressions)
  }

  /** Pressing a button twice restores the state, and the two buttons commute. */
  lemma {:induction false} TogglesInvolutiveAndCommute(s: State)
    ensures ToggleDetection(ToggleDetection(s)) == s
    ensures ToggleExpressions(ToggleExpressions(s)) == s
    ensures ToggleDetection(ToggleExpressions(s)) == ToggleExpressions(ToggleDetection(s))
  {
  }

  /** The background colour of each expression that has one. */
  const Palette: map<string, string> :=
    map["happy" := "#d1f7c4", "angry" := "#f9c0c0", "sad" := "#c0d6f9", "surprised" := "#fff3b0"]

  /** The background colour for anything else, an absent expression included. */
  const NeutralColor: string := "white"

  /** The page's background colour for the dominant expression. */
  function BackgroundColor(expression: Option<string>): (c: string)
    ensures expression.Some? && expression.value in Palette ==> c == Palette[expression.value]
    ensures !(expression.Some? && expression.value in Palette) ==> c == NeutralColor
  {
    match expression
    case None => "white"
    case Some(e) =>
      if e == "happy" then "#d1f7c4"
      else if e == "angry" then "#f9c0c0"
      else if e == "sad" then "#c0d6f9"
      else if e == "surprised" then "#fff3b0"
      else "white"
  }

  /**
   The colours tell the expressions apart: the neutral colour shows exactly
   when no coloured expression is dominant, and distinct coloured expressions
   get distinct colours.
   */
  lemma {:induction false} BackgroundDistinguishes(e1: Option<string>, e2: Option<string>)
    ensures BackgroundColor(e1) == NeutralColor <==> !(e1.Some? && e1.value in Palette)
    ensures e1.Some? && e2.Some? && e1.value in Palette && e2.value in Palette && e1 != e2 ==>
              BackgroundColor(e1) != BackgroundColor(e2)
  {
  }

  /** What the state promises the view: no dominant expression while no face is counted. */
  predicate Consistent(s: State)
  {
    s.faceCount == 0 ==> s.expression.None?
  }

  /** The things that happen to the state: a completed cycle, or a button press. */
  datatype Event =
    | Cycle(video: Option<Video>, detections: seq<Detection>, width: nat, height: nat, measure: Measure)
    | PressDetection
    | PressExpressions

  function Apply(s: State, e: Event): State
  {
    match e
    case Cycle(video, ds, width, height, measure) => Step(video, ds, width, height, measure, s)
    case PressDetection => ToggleDetection(s)
    case PressExpressions => ToggleExpressions(s)
  }

  /** The state after a sequence of events, applied in order. */
  function Run(s: State, events: seq<Event>): State
    decreases |events|
  {
    if |events| == 0 then s else Run(Apply(s, events[0]), events[1..])
  }

  /** Every event keeps the state consistent. */
  lemma {:induction false} ApplyKeepsConsistent(s: State, e: Event)
    requires Consistent(s)
    ensures Consistent(Apply(s, e))
  {
  }

  /** Every state reachable from start-up is consistent. */
  lemma {:induction false} RunKeepsConsistent(s: State, events: seq<Event>)
    requires Consistent(s)
    ensures Consistent(Run(s, events))
    decreases |events|
  {
    if |events| > 0 {
      ApplyKeepsConsistent(s, events[0]);
      RunKeepsConsistent(Apply(s, events[0]), events[1..]);
    }
  }

  /** Start-up is consistent, hence so is every state the application reaches. */
  lemma {:induction false} ReachableConsistent(events: seq<Event>)
    ensures Consistent(Run(Init, events))
  {
    RunKeepsConsistent(Init, events);
  }

  /**
   Switching expression mode off does not clear the dominant expression: after
   detection is switched on, one happy face is seen and the mode is switched
   off, the happy expression and its colour are still shown until the next
   cycle.
   */
  lemma {:induction false} ModeOffKeepsStaleExpression(measure: Measure)
    ensures var d := Detection(Box(10.0, 40.0, 100.0, 100.0), [Entry("neutral", 0.1), Entry("happy", 0.8)]);
            var s := Run(Init, [PressDetection, Cycle(Some(Video(HaveEnoughData, 640, 480)), [d], 640, 480, measure),
                                PressExpressions]);
            && !s.detectExpressions
            && s.expression == Some("happy")
            && BackgroundColor(s.expression) == "#d1f7c4"
  {
    var d := Detection(Box(10.0, 40.0, 100.0, 100.0), [Entry("neutral", 0.1), Entry("happy", 0.8)]);
    TopOfUniqueMax(d.expressions, 1);
    var cycle := Cycle(Some(Video(HaveEnoughData, 640, 480)), [d], 640, 480, measure);
    var s0 := ToggleDetection(Init);
    var s1 := Step(Some(Video(HaveEnoughData, 640, 480)), [d], 640, 480, measure, s0);
    assert AllLabelled([d]);
    assert s1.expression == Some("happy");
    var events := [PressDetection, cycle, PressExpressions];
    assert Run(Init, events) == Run(s0, events[1..]);
    assert Run(s0, events[1..]) == Run(s1, events[2..]);
    assert Run(s1, events[2..]) == Run(ToggleExpressions(s1), []);
  }

  /**
   Two faces scored {happy: 0.9, sad: 0.1} and {angry: 0.8}, wherever their
   boxes are: two faces are counted and the first face decides the dominant
   expression.
   */
  lemma {:induction false} TwoFacesScenario(measure: Measure, s: State, ds: seq<Detection>)
    requires s.detectExpressions
    requires |ds| == 2
    requires ds[0].expressions == [Entry("happy", 0.9), Entry("sad", 0.1)]
    requires ds[1].expressions == [Entry("angry", 0.8)]
    ensures var r := Step(Some(Video(HaveEnoughData, 640, 480)), ds, 640, 480, measure, s);
            && r.faceCount == 2
            && r.expression == Some("happy")
  {
    assert AllLabelled(ds);
    var e := ds[0].expressions;
    assert IsFirstMax(e, 0);
    FirstMaxUnique(e, 0, FirstMaxIndex(e));
  }
}
