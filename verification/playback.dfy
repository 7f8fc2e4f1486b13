/** The playback cursors of `outputVideo`: for every frame timestamp,
    `draw_fixation`, `draw_saccade` and `draw_gaze` sweep their cursor forward
    past every event that has ended, then decide what to draw for the event
    the cursor stops at. The pixels OpenCV draws are not modelled; which event
    is selected and what mark is drawn for it are. */
module Playback {
  import opened Wrappers
  import opened PyValues
  import opened EyeData
  import opened WindowsTime
  import opened Saccades

  /** Where a sweep stops: past the end before it started, running off the end
      inside the `while` loop (an IndexError), or at an event. */
  datatype Step = Exhausted | IndexFault | At(index: nat)

  /** The `while` loop: skip events from i on while their end time is <= t. */
  function Sweep(ends: seq<real>, t: real, i: nat): (r: Step)
    requires i < |ends|
    ensures r.At? || r == IndexFault
    ensures r == IndexFault <==> forall j | i <= j < |ends| :: ends[j] <= t
    ensures r.At? ==> i <= r.index < |ends| && t < ends[r.index]
                      && forall j | i <= j < r.index :: ends[j] <= t
    decreases |ends| - i
  {
    if t < ends[i] then At(i)
    else if i + 1 < |ends| then Sweep(ends, t, i + 1)
    else IndexFault
  }

  /** The shared cursor advance: -1 is returned (Exhausted) only when the cursor
      is already past the end. */
  function Advance(ends: seq<real>, t: real, current: nat): (r: Step)
    ensures r == Exhausted <==> current >= |ends|
    ensures r == IndexFault <==> current < |ends| && forall j | current <= j < |ends| :: ends[j] <= t
    ensures r.At? ==> current <= r.index < |ends| && t < ends[r.index]
                      && forall j | current <= j < r.index :: ends[j] <= t
  {
    if current < |ends| then Sweep(ends, t, current) else Exhausted
  }

  /** The sweep from `current` stops at k: every event before k has ended by t
      and event k has not. */
  predicate StopsAt(ends: seq<real>, t: real, current: nat, k: nat) {
    current <= k < |ends| && t < ends[k] && forall j | current <= j < k :: ends[j] <= t
  }

  /** The sweep stops at one event at most, and Advance finds it. */
  lemma StopIsAdvance(ends: seq<real>, t: real, current: nat, k: nat)
    requires StopsAt(ends, t, current, k)
    ensures Advance(ends, t, current) == At(k)
  {
  }

  // ---- Event times ----

  predicate GazesTimed(gazes: seq<Gaze>) {
    forall k | 0 <= k < |gazes| :: Numeric(gazes[k].systemTime)
  }

  function GazeTime(g: Gaze): real
    requires Numeric(g.systemTime)
  {
    AsReal(g.systemTime)
  }

  function GazeEnds(gazes: seq<Gaze>): (ends: seq<real>)
    requires GazesTimed(gazes)
    ensures |ends| == |gazes| && forall k | 0 <= k < |gazes| :: ends[k] == GazeTime(gazes[k])
  {
    seq(|gazes|, k requires 0 <= k < |gazes| => GazeTime(gazes[k]))
  }

  predicate FixationsTimed(fixations: seq<Fixation>) {
    forall k | 0 <= k < |fixations| ::
      Numeric(fixations[k].startEventTime) && Numeric(fixations[k].duration)
  }

  /** A fixation's start on the gaze clock. */
  function FixationStart(f: Fixation): real
    requires Numeric(f.startEventTime)
  {
    ConvertWindowsTime(AsReal(f.startEventTime))
  }

  function FixationEnd(f: Fixation): real
    requires Numeric(f.startEventTime) && Numeric(f.duration)
  {
    FixationStart(f) + AsReal(f.duration)
  }

  function FixationEnds(fixations: seq<Fixation>): (ends: seq<real>)
    requires FixationsTimed(fixations)
    ensures |ends| == |fixations| && forall k | 0 <= k < |fixations| :: ends[k] == FixationEnd(fixations[k])
  {
    seq(|fixations|, k requires 0 <= k < |fixations| && FixationsTimed(fixations) => FixationEnd(fixations[k]))
  }

  predicate SaccadeTimed(s: Saccade) {
    |s| > 0 && GazesTimed(s)
  }

  predicate SaccadesTimed(saccades: seq<Saccade>) {
    forall k | 0 <= k < |saccades| :: SaccadeTimed(saccades[k])
  }

  function SaccadeStart(s: Saccade): real
    requires SaccadeTimed(s)
  {
    GazeTime(s[0])
  }

  function SaccadeEnd(s: Saccade): real
    requires SaccadeTimed(s)
  {
    GazeTime(s[|s| - 1])
  }

  function SaccadeEnds(saccades: seq<Saccade>): (ends: seq<real>)
    requires SaccadesTimed(saccades)
    ensures |ends| == |saccades| && forall k | 0 <= k < |saccades| :: ends[k] == SaccadeEnd(saccades[k])
  {
    seq(|saccades|, k requires 0 <= k < |saccades| && SaccadesTimed(saccades) => SaccadeEnd(saccades[k]))
  }

  // ---- What gets drawn ----

  /** The mark drawn on the frame for the selected event. */
  datatype Mark = NoMark | Circle(cx: int, cy: int) | Lines(points: seq<(int, int)>)

  /** The outcome of one draw call: the stream is finished (-1), an exception
      escaped, or the cursor stopped at an event and drew a mark for it. */
  datatype Drawn = Finished | Fault(error: PyError) | Shown(cursor: nat, mark: Mark)

  /** `try: cv2.circle(frame, (int(x), int(y)), ...) except ValueError: pass` */
  function CircleAt(x: Value, y: Value): (r: Result<Mark, PyError>)
    ensures r.Ok? ==> r.value.Circle? || r.value.NoMark?
    ensures (r.Ok? && r.value.Circle?) <==> Convertible(x) && Convertible(y)
    ensures r.Ok? && r.value.Circle? ==> IntOf(x) == Ok(r.value.cx) && IntOf(y) == Ok(r.value.cy)
    ensures r.Err? ==> r.error != ValueError && r.error != IndexError
  {
    match IntOf(x)
    case Err(e) => if e == ValueError then Ok(NoMark) else Err(e)
    case Ok(cx) =>
      match IntOf(y)
      case Err(e) => if e == ValueError then Ok(NoMark) else Err(e)
      case Ok(cy) => Ok(Circle(cx, cy))
  }

  /** The circle drawn for a gaze is skipped exactly when `isNaN` says so, and
      raises exactly when `isNaN` raises. */
  lemma CircleAgreesWithIsNaN(g: Gaze)
    ensures CircleAt(g.x, g.y) == Ok(NoMark) <==> IsNaN(g) == Ok(true)
    ensures CircleAt(g.x, g.y).Err? <==> IsNaN(g).Err?
    ensures CircleAt(g.x, g.y).Err? ==> CircleAt(g.x, g.y).error == IsNaN(g).error
  {
  }

  predicate AllConvertible(s: seq<Gaze>) {
    forall k | 0 <= k < |s| :: Convertible(s[k].x) && Convertible(s[k].y)
  }

  /** The integer points of a saccade, converted in order with no exception caught. */
  function Points(s: seq<Gaze>): (r: Result<seq<(int, int)>, PyError>)
    ensures r.Ok? <==> AllConvertible(s)
    ensures r.Ok? ==> |r.value| == |s| && forall k | 0 <= k < |s| ::
              IntOf(s[k].x) == Ok(r.value[k].0) && IntOf(s[k].y) == Ok(r.value[k].1)
    ensures r.Err? ==> r.error != IndexError
  {
    if |s| == 0 then Ok([])
    else
      match IntOf(s[0].x)
      case Err(e) => Err(e)
      case Ok(x) =>
        match IntOf(s[0].y)
        case Err(e) => Err(e)
        case Ok(y) =>
          match Points(s[1..])
          case Err(e) => Err(e)
          case Ok(rest) => Ok([(x, y)] + rest)
  }

  lemma StopGaze(gazes: seq<Gaze>, t: real, current: nat)
    requires GazesTimed(gazes)
    ensures forall k: nat | StopsAt(GazeEnds(gazes), t, current, k) :: Advance(GazeEnds(gazes), t, current) == At(k)
  {
    forall k: nat | StopsAt(GazeEnds(gazes), t, current, k) ensures Advance(GazeEnds(gazes), t, current) == At(k) {
      StopIsAdvance(GazeEnds(gazes), t, current, k);
    }
  }

  lemma StopFixation(fixations: seq<Fixation>, t: real, current: nat)
    requires FixationsTimed(fixations)
    ensures forall k: nat | StopsAt(FixationEnds(fixations), t, current, k) ::
              Advance(FixationEnds(fixations), t, current) == At(k)
  {
    forall k: nat | StopsAt(FixationEnds(fixations), t, current, k)
      ensures Advance(FixationEnds(fixations), t, current) == At(k)
    {
      StopIsAdvance(FixationEnds(fixations), t, current, k);
    }
  }

  lemma StopSaccade(saccades: seq<Saccade>, t: real, current: nat)
    requires SaccadesTimed(saccades)
    ensures forall k: nat | StopsAt(SaccadeEnds(saccades), t, current, k) ::
              Advance(SaccadeEnds(saccades), t, current) == At(k)
  {
    forall k: nat | StopsAt(SaccadeEnds(saccades), t, current, k)
      ensures Advance(SaccadeEnds(saccades), t, current) == At(k)
    {
      StopIsAdvance(SaccadeEnds(saccades), t, current, k);
    }
  }

  /** `draw_gaze`. */
  function DrawGaze(gazes: seq<Gaze>, t: real, current: nat): (r: Drawn)
    requires GazesTimed(gazes)
    ensures r == Finished <==> current >= |gazes|
    ensures r == Fault(IndexError) <==>
              current < |gazes| && forall j | current <= j < |gazes| :: GazeTime(gazes[j]) <= t
    ensures r.Shown? ==> current <= r.cursor < |gazes| && t < GazeTime(gazes[r.cursor])
                         && forall j | current <= j < r.cursor :: GazeTime(gazes[j]) <= t
    ensures r.Shown? ==> (r.mark.Circle? <==> IsNaN(gazes[r.cursor]) == Ok(false))
    ensures r.Shown? ==> r.mark.Circle? || r.mark.NoMark?
    ensures forall k: nat | StopsAt(GazeEnds(gazes), t, current, k) ::
              if IsNaN(gazes[k]).Err? then r == Fault(IsNaN(gazes[k]).error) else r.Shown? && r.cursor == k
  {
    StopGaze(gazes, t, current);
    match Advance(GazeEnds(gazes), t, current)
    case Exhausted => Finished
    case IndexFault => Fault(IndexError)
    case At(k) =>
      match CircleAt(gazes[k].x, gazes[k].y)
      case Err(e) => Fault(e)
      case Ok(m) => Shown(k, m)
  }

  /** `draw_fixation`, without the member gazes it looks up in the database. */
  function DrawFixation(fixations: seq<Fixation>, t: real, current: nat): (r: Drawn)
    requires FixationsTimed(fixations)
    ensures r == Finished <==> current >= |fixations|
    ensures r == Fault(IndexError) <==>
              current < |fixations| && forall j | current <= j < |fixations| :: FixationEnd(fixations[j]) <= t
    ensures r.Shown? ==> current <= r.cursor < |fixations| && t < FixationEnd(fixations[r.cursor])
                         && forall j | current <= j < r.cursor :: FixationEnd(fixations[j]) <= t
    ensures r.Shown? ==> (r.mark.Circle? <==>
              FixationStart(fixations[r.cursor]) <= t
              && Convertible(fixations[r.cursor].x) && Convertible(fixations[r.cursor].y))
    ensures r.Shown? ==> r.mark.Circle? || r.mark.NoMark?
    ensures forall k: nat | StopsAt(FixationEnds(fixations), t, current, k) ::
              var f := fixations[k];
              if FixationStart(f) <= t && CircleAt(f.x, f.y).Err? then r == Fault(CircleAt(f.x, f.y).error)
              else r.Shown? && r.cursor == k
  {
    StopFixation(fixations, t, current);
    match Advance(FixationEnds(fixations), t, current)
    case Exhausted => Finished
    case IndexFault => Fault(IndexError)
    case At(k) =>
      var f := fixations[k];
      if FixationStart(f) <= t then
        match CircleAt(f.x, f.y)
        case Err(e) => Fault(e)
        case Ok(m) => Shown(k, m)
      else Shown(k, NoMark)
  }

  /** `draw_saccade`: the whole polyline appears once the first gaze's time is reached. */
  function DrawSaccade(saccades: seq<Saccade>, t: real, current: nat): (r: Drawn)
    requires SaccadesTimed(saccades)
    ensures r == Finished <==> current >= |saccades|
    ensures r == Fault(IndexError) <==>
              current < |saccades| && forall j | current <= j < |saccades| :: SaccadeEnd(saccades[j]) <= t
    ensures r.Shown? ==> current <= r.cursor < |saccades| && t < SaccadeEnd(saccades[r.cursor])
                         && forall j | current <= j < r.cursor :: SaccadeEnd(saccades[j]) <= t
    ensures r.Shown? ==> (r.mark.Lines? <==>
              SaccadeStart(saccades[r.cursor]) <= t && |saccades[r.cursor]| >= 2
              && AllConvertible(saccades[r.cursor]))
    ensures r.Shown? && r.mark.Lines? ==> |r.mark.points| == |saccades[r.cursor]|
    ensures r.Shown? ==> r.mark.Lines? || r.mark.NoMark?
    ensures forall k: nat | StopsAt(SaccadeEnds(saccades), t, current, k) ::
              var s := saccades[k];
              if SaccadeStart(s) <= t && |s| >= 2 && Points(s).Err? then r == Fault(Points(s).error)
              else r.Shown? && r.cursor == k
  {
    StopSaccade(saccades, t, current);
    match Advance(SaccadeEnds(saccades), t, current)
    case Exhausted => Finished
    case IndexFault => Fault(IndexError)
    case At(k) =>
      var s := saccades[k];
      if SaccadeStart(s) <= t && |s| >= 2 then
        match Points(s)
        case Err(e) => Fault(e)
        case Ok(ps) => Shown(k, Lines(ps))
      else Shown(k, NoMark)
  }

  /** Saccades built by the segmenter never make `draw_saccade` raise anything
      but the IndexError of its sweep. */
  lemma SegmentedSaccadesDrawCleanly(gazes: seq<Gaze>, members: set<Value>, t: real, current: nat)
    requires Segment(gazes, members).Ok? && SaccadesTimed(Segment(gazes, members).value)
    ensures var r := DrawSaccade(Segment(gazes, members).value, t, current);
            r.Fault? ==> r.error == IndexError
  {
    var saccades := Segment(gazes, members).value;
    var r := DrawSaccade(saccades, t, current);
    if r.Fault? && r.error != IndexError {
      var k := Advance(SaccadeEnds(saccades), t, current).index;
      forall j | 0 <= j < |saccades[k]|
        ensures Convertible(saccades[k][j].x) && Convertible(saccades[k][j].y)
      {
        SaccadeGazesConvertible(gazes, members, k, j);
      }
      assert AllConvertible(saccades[k]);
      assert false;
    }
  }

  // ---- The frame loop ----

  /** The three cursors of `outputVideo`; -1 means the stream is finished. */
  datatype Cursors = Cursors(gaze: int, fixation: int, saccade: int)

  predicate ValidCursors(c: Cursors) {
    c.gaze >= -1 && c.fixation >= -1 && c.saccade >= -1
  }

  /** Lines 272-274 as written: `len(None)` raises when no fixation run is
      selected or saccades were not computed. */
  function InitCursorsAsWritten(fixations: Option<seq<Fixation>>, saccades: Option<seq<Saccade>>)
    : (r: Result<Cursors, PyError>)
    ensures r.Ok? <==> fixations.Some? && saccades.Some?
    ensures r.Err? ==> r.error == TypeError
    ensures r.Ok? ==> r.value == InitCursors(fixations, saccades)
  {
    if fixations.None? || saccades.None? then Err(TypeError)
    else Ok(Cursors(0, if |fixations.value| != 0 then 0 else -1, if |saccades.value| != 0 then 0 else -1))
  }

  /** The initialisation with no fixations or no saccades, as the drawing
      code is written to allow, crashes before the first frame. */
  lemma InitCrashesWithoutFixationRun(saccades: seq<Saccade>)
    ensures InitCursorsAsWritten(None, Some(saccades)) == Err(TypeError)
  {
  }

  /** The initialisation with an absent stream treated as an empty one. */
  function InitCursors(fixations: Option<seq<Fixation>>, saccades: Option<seq<Saccade>>): (c: Cursors)
    ensures ValidCursors(c) && c.gaze == 0
    ensures c.fixation == -1 <==> fixations.None? || |fixations.value| == 0
    ensures c.saccade == -1 <==> saccades.None? || |saccades.value| == 0
    ensures c.fixation != -1 ==> c.fixation == 0 && c.fixation < |fixations.value|
    ensures c.saccade != -1 ==> c.saccade == 0 && c.saccade < |saccades.value|
  {
    Cursors(0,
            if fixations.Some? && |fixations.value| != 0 then 0 else -1,
            if saccades.Some? && |saccades.value| != 0 then 0 else -1)
  }

  /** The cursor value a draw call returns to the loop. */
  function NextCursor(d: Drawn): Result<int, PyError> {
    match d
    case Finished => Ok(-1)
    case Fault(e) => Err(e)
    case Shown(k, _) => Ok(k as int)
  }

  /** A cursor's pure sweep: what the loop stores, if no exception escapes. */
  function SweepCursor(ends: seq<real>, t: real, cur: int): (r: Option<int>)
    requires cur >= -1
    ensures r.Some? ==> r.value >= -1 && Follows(cur, r.value)
  {
    if cur == -1 then Some(-1)
    else
      match Advance(ends, t, cur)
      case Exhausted => Some(-1)
      case At(k) => Some(k as int)
      case IndexFault => None
  }

  /** Cursor b can follow cursor a: never backwards, and -1 is final. */
  predicate Follows(a: int, b: int) {
    (a == -1 ==> b == -1) && (a >= 0 ==> b == -1 || a <= b)
  }

  predicate Streams(gazes: seq<Gaze>, fixations: seq<Fixation>, saccades: seq<Saccade>) {
    GazesTimed(gazes) && FixationsTimed(fixations) && SaccadesTimed(saccades)
  }

  /** The error a draw call raises, if any. */
  function FaultOf(d: Drawn): (e: Option<PyError>)
    ensures e.Some? <==> d.Fault?
  {
    if d.Fault? then Some(d.error) else None
  }

  /** The error each stream's draw raises at time t, None when its cursor is
      -1 or its draw succeeds. */
  function FixationFault(c: Cursors, t: real, fixations: seq<Fixation>): Option<PyError>
    requires ValidCursors(c) && FixationsTimed(fixations)
  {
    if c.fixation == -1 then None else FaultOf(DrawFixation(fixations, t, c.fixation))
  }

  function SaccadeFault(c: Cursors, t: real, saccades: seq<Saccade>): Option<PyError>
    requires ValidCursors(c) && SaccadesTimed(saccades)
  {
    if c.saccade == -1 then None else FaultOf(DrawSaccade(saccades, t, c.saccade))
  }

  function GazeFault(c: Cursors, t: real, gazes: seq<Gaze>): Option<PyError>
    requires ValidCursors(c) && GazesTimed(gazes)
  {
    if c.gaze == -1 then None else FaultOf(DrawGaze(gazes, t, c.gaze))
  }

  /** One sub-frame of the loop: fixation, then saccade, then gaze, each only
      while its cursor is not -1. It succeeds exactly when no live stream's draw
      raises, and otherwise raises the first such error in that order. */
  function Tick(c: Cursors, t: real, gazes: seq<Gaze>, fixations: seq<Fixation>, saccades: seq<Saccade>)
    : (r: Result<Cursors, PyError>)
    requires ValidCursors(c) && Streams(gazes, fixations, saccades)
    ensures r.Ok? ==> ValidCursors(r.value)
    ensures r.Ok? ==> Some(r.value.gaze) == SweepCursor(GazeEnds(gazes), t, c.gaze)
                      && Some(r.value.fixation) == SweepCursor(FixationEnds(fixations), t, c.fixation)
                      && Some(r.value.saccade) == SweepCursor(SaccadeEnds(saccades), t, c.saccade)
    ensures SweepCursor(FixationEnds(fixations), t, c.fixation).None? ==> r.Err?
    ensures SweepCursor(SaccadeEnds(saccades), t, c.saccade).None? ==> r.Err?
    ensures SweepCursor(GazeEnds(gazes), t, c.gaze).None? ==> r.Err?
    ensures r.Ok? <==> (FixationFault(c, t, fixations).None? && SaccadeFault(c, t, saccades).None?
                        && GazeFault(c, t, gazes).None?)
    ensures FixationFault(c, t, fixations).Some? ==> r == Err(FixationFault(c, t, fixations).value)
    ensures FixationFault(c, t, fixations).None? && SaccadeFault(c, t, saccades).Some? ==>
              r == Err(SaccadeFault(c, t, saccades).value)
    ensures FixationFault(c, t, fixations).None? && SaccadeFault(c, t, saccades).None? && GazeFault(c, t, gazes).Some? ==>
              r == Err(GazeFault(c, t, gazes).value)
  {
    var f := if c.fixation != -1 then NextCursor(DrawFixation(fixations, t, c.fixation)) else Ok(-1);
    match f
    case Err(e) => Err(e)
    case Ok(fc) =>
      var s := if c.saccade != -1 then NextCursor(DrawSaccade(saccades, t, c.saccade)) else Ok(-1);
      match s
      case Err(e) => Err(e)
      case Ok(sc) =>
        var g := if c.gaze != -1 then NextCursor(DrawGaze(gazes, t, c.gaze)) else Ok(-1);
        match g
        case Err(e) => Err(e)
        case Ok(gc) => Ok(Cursors(gc, fc, sc))
  }

  /** The frame loop over a sequence of sub-frame timestamps. */
  function Run(c: Cursors, ts: seq<real>, gazes: seq<Gaze>, fixations: seq<Fixation>, saccades: seq<Saccade>)
    : Result<Cursors, PyError>
    requires ValidCursors(c) && Streams(gazes, fixations, saccades)
    decreases |ts|
  {
    if |ts| == 0 then Ok(c)
    else
      match Tick(c, ts[0], gazes, fixations, saccades)
      case Err(e) => Err(e)
      case Ok(next) => Run(next, ts[1..], gazes, fixations, saccades)
  }

  /** The pure sweep of one cursor over a sequence of timestamps. */
  function RunStream(ends: seq<real>, cur: int, ts: seq<real>): Option<int>
    requires cur >= -1
    decreases |ts|
  {
    if |ts| == 0 then Some(cur)
    else
      match SweepCursor(ends, ts[0], cur)
      case None => None
      case Some(next) => RunStream(ends, next, ts[1..])
  }

  /** Over any run of the frame loop each cursor only moves forward, and once
      -1 it stays -1. */
  lemma {:induction false} RunNeverMovesBack(c: Cursors, ts: seq<real>, gazes: seq<Gaze>,
                                             fixations: seq<Fixation>, saccades: seq<Saccade>)
    requires ValidCursors(c) && Streams(gazes, fixations, saccades)
    requires Run(c, ts, gazes, fixations, saccades).Ok?
    ensures var d := Run(c, ts, gazes, fixations, saccades).value;
            ValidCursors(d) && Follows(c.gaze, d.gaze) && Follows(c.fixation, d.fixation)
            && Follows(c.saccade, d.saccade)
    decreases |ts|
  {
    if |ts| > 0 {
      var next := Tick(c, ts[0], gazes, fixations, saccades).value;
      RunNeverMovesBack(next, ts[1..], gazes, fixations, saccades);
    }
  }

  /** A successful run leaves each cursor where its own pure sweep leaves it:
      the three streams advance independently. */
  lemma {:induction false} RunIsThreeSweeps(c: Cursors, ts: seq<real>, gazes: seq<Gaze>,
                                            fixations: seq<Fixation>, saccades: seq<Saccade>)
    requires ValidCursors(c) && Streams(gazes, fixations, saccades)
    requires Run(c, ts, gazes, fixations, saccades).Ok?
    ensures var d := Run(c, ts, gazes, fixations, saccades).value;
            RunStream(GazeEnds(gazes), c.gaze, ts) == Some(d.gaze)
            && RunStream(FixationEnds(fixations), c.fixation, ts) == Some(d.fixation)
            && RunStream(SaccadeEnds(saccades), c.saccade, ts) == Some(d.saccade)
    decreases |ts|
  {
    if |ts| > 0 {
      var next := Tick(c, ts[0], gazes, fixations, saccades).value;
      RunIsThreeSweeps(next, ts[1..], gazes, fixations, saccades);
    }
  }

  lemma {:induction false} SweepSkips(ends: seq<real>, t: real, i: nat, k: nat)
    requires i <= k < |ends|
    requires forall j | i <= j < k :: ends[j] <= t
    ensures Sweep(ends, t, i) == Sweep(ends, t, k)
    decreases k - i
  {
    if i < k {
      SweepSkips(ends, t, i + 1, k);
    }
  }

  /** Sweeping to t1 and then on to a later t2 ends where one sweep to t2 ends. */
  lemma SweepCursorComposes(ends: seq<real>, t1: real, t2: real, cur: int)
    requires cur >= -1 && t1 <= t2
    ensures SweepCursor(ends, t1, cur).None? ==> SweepCursor(ends, t2, cur).None?
    ensures SweepCursor(ends, t1, cur).Some? ==>
              SweepCursor(ends, t2, SweepCursor(ends, t1, cur).value) == SweepCursor(ends, t2, cur)
  {
    if cur >= 0 && cur < |ends| {
      var s1 := Sweep(ends, t1, cur);
      if s1.At? {
        SweepSkips(ends, t2, cur, s1.index);
      }
    }
  }

  predicate NonDecreasing(ts: seq<real>) {
    forall i, j | 0 <= i <= j < |ts| :: ts[i] <= ts[j]
  }

  /** Frame-rate independence: sweeping a cursor frame by frame over
      non-decreasing timestamps ends where a single sweep to the last
      timestamp ends, faults included. */
  lemma {:induction false} RunStreamIsOneSweep(ends: seq<real>, cur: int, ts: seq<real>)
    requires cur >= -1 && |ts| > 0 && NonDecreasing(ts)
    ensures RunStream(ends, cur, ts) == SweepCursor(ends, ts[|ts| - 1], cur)
    decreases |ts|
  {
    var last := ts[|ts| - 1];
    SweepCursorComposes(ends, ts[0], last, cur);
    if |ts| > 1 {
      match SweepCursor(ends, ts[0], cur)
      case None =>
      case Some(next) =>
        RunStreamIsOneSweep(ends, next, ts[1..]);
    }
  }

  /** An absent stream is drawn as an empty one. */
  function OrEmpty<T>(o: Option<seq<T>>): seq<T> {
    if o.Some? then o.value else []
  }

  /** With the corrected initialisation, a stream that was never loaded is
      finished from the first frame and stays finished: the loop runs without
      it instead of crashing. */
  lemma AbsentStreamNeverDrawn(gazes: seq<Gaze>, fixations: Option<seq<Fixation>>,
                               saccades: Option<seq<Saccade>>, ts: seq<real>)
    requires Streams(gazes, OrEmpty(fixations), OrEmpty(saccades))
    requires Run(InitCursors(fixations, saccades), ts, gazes, OrEmpty(fixations), OrEmpty(saccades)).Ok?
    ensures var d := Run(InitCursors(fixations, saccades), ts, gazes, OrEmpty(fixations), OrEmpty(saccades)).value;
            (fixations.None? ==> d.fixation == -1) && (saccades.None? ==> d.saccade == -1)
  {
    RunNeverMovesBack(InitCursors(fixations, saccades), ts, gazes, OrEmpty(fixations), OrEmpty(saccades));
  }
}
