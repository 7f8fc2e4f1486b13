/** The gaze and fixation records built from database rows, and the validity
    test that decides which gazes may enter a saccade. */
module EyeData {
  import opened Wrappers
  import opened PyValues

  /** One row of the `gaze` table, unpacked field by field in column order. */
  datatype Gaze = Gaze(
    eventTime: Value, sessionId: Value, calibrationId: Value, participantId: Value,
    trackerTime: Value, systemTime: Value, x: Value, y: Value,
    leftX: Value, leftY: Value, leftPupilDiameter: Value, leftValidation: Value,
    rightX: Value, rightY: Value, rightPupilDiameter: Value, rightValidation: Value,
    userLeftX: Value, userLeftY: Value, userLeftZ: Value,
    userRightX: Value, userRightY: Value, userRightZ: Value)

  /** One row of the `fixation` table, unpacked field by field in column order. */
  datatype Fixation = Fixation(
    fixationId: Value, fixationRunId: Value, startEventTime: Value, orderNumber: Value,
    x: Value, y: Value, target: Value, sourceFileLine: Value, sourceFileCol: Value,
    token: Value, syntacticCategory: Value, xpath: Value,
    leftPupilDiameter: Value, rightPupilDiameter: Value, duration: Value)

  const GazeArity: nat := 22
  const FixationArity: nat := 15

  /** The row a gaze was unpacked from. */
  function GazeRow(g: Gaze): (row: seq<Value>)
    ensures |row| == GazeArity
  {
    [g.eventTime, g.sessionId, g.calibrationId, g.participantId, g.trackerTime, g.systemTime,
     g.x, g.y, g.leftX, g.leftY, g.leftPupilDiameter, g.leftValidation,
     g.rightX, g.rightY, g.rightPupilDiameter, g.rightValidation,
     g.userLeftX, g.userLeftY, g.userLeftZ, g.userRightX, g.userRightY, g.userRightZ]
  }

  /** The row a fixation was unpacked from. */
  function FixationRow(f: Fixation): (row: seq<Value>)
    ensures |row| == FixationArity
  {
    [f.fixationId, f.fixationRunId, f.startEventTime, f.orderNumber, f.x, f.y, f.target,
     f.sourceFileLine, f.sourceFileCol, f.token, f.syntacticCategory, f.xpath,
     f.leftPupilDiameter, f.rightPupilDiameter, f.duration]
  }

  /** `Gaze(row)`: the unpacking succeeds only for a row of exactly 22 values. */
  function GazeOf(row: seq<Value>): (r: Result<Gaze, PyError>)
    ensures r.Ok? <==> |row| == GazeArity
    ensures r.Err? ==> r.error == UnpackError(GazeArity, |row|)
    ensures r.Ok? ==> GazeRow(r.value) == row
    ensures r.Ok? ==> r.value.eventTime == row[0] && r.value.systemTime == row[5]
                      && r.value.x == row[6] && r.value.y == row[7]
  {
    if |row| != GazeArity then Err(UnpackError(GazeArity, |row|))
    else Ok(Gaze(row[0], row[1], row[2], row[3], row[4], row[5], row[6], row[7], row[8], row[9],
                 row[10], row[11], row[12], row[13], row[14], row[15], row[16], row[17], row[18],
                 row[19], row[20], row[21]))
  }

  /** `Fixation(row)`: the unpacking succeeds only for a row of exactly 15 values. */
  function FixationOf(row: seq<Value>): (r: Result<Fixation, PyError>)
    ensures r.Ok? <==> |row| == FixationArity
    ensures r.Err? ==> r.error == UnpackError(FixationArity, |row|)
    ensures r.Ok? ==> FixationRow(r.value) == row
    ensures r.Ok? ==> r.value.fixationId == row[0] && r.value.startEventTime == row[2]
                      && r.value.x == row[4] && r.value.y == row[5] && r.value.duration == row[14]
  {
    if |row| != FixationArity then Err(UnpackError(FixationArity, |row|))
    else Ok(Fixation(row[0], row[1], row[2], row[3], row[4], row[5], row[6], row[7], row[8], row[9],
                     row[10], row[11], row[12], row[13], row[14]))
  }

  lemma GazeRowRoundTrip(g: Gaze)
    ensures GazeOf(GazeRow(g)) == Ok(g)
  {
  }

  lemma FixationRowRoundTrip(f: Fixation)
    ensures FixationOf(FixationRow(f)) == Ok(f)
  {
  }

  /** Whether Python's `int()` accepts v. */
  predicate Convertible(v: Value) {
    v.Int? || v.Float? || (v.Text? && ParseInt(v.s).Some?)
  }

  /** `Gaze.isNaN`: evaluates `int(x) + int(y)`; a ValueError means "NaN",
      any other exception escapes. */
  function IsNaN(g: Gaze): (r: Result<bool, PyError>)
    ensures r == Ok(false) <==> Convertible(g.x) && Convertible(g.y)
    ensures r == Ok(true) <==> g.x.NaN? || (g.x.Text? && !Convertible(g.x))
                               || (Convertible(g.x) && (g.y.NaN? || (g.y.Text? && !Convertible(g.y))))
    ensures r.Err? ==> r.error != ValueError
    ensures r.Err? <==> g.x.Infinity? || g.x.Null? || (Convertible(g.x) && (g.y.Infinity? || g.y.Null?))
  {
    match IntOf(g.x)
    case Err(e) => if e == ValueError then Ok(true) else Err(e)
    case Ok(_) =>
      match IntOf(g.y)
      case Err(e) => if e == ValueError then Ok(true) else Err(e)
      case Ok(_) => Ok(false)
  }

  /** `Gaze.__str__` and `Fixation.__str__`: "<kind> at " followed by the tuple
      `(x, y)`; `repr` stands for Python's rendering of one value. */
  function GazeText(g: Gaze, repr: Value -> string): string {
    "Gaze at (" + repr(g.x) + ", " + repr(g.y) + ")"
  }

  function FixationText(f: Fixation, repr: Value -> string): string {
    "Fixation at (" + repr(f.x) + ", " + repr(f.y) + ")"
  }

  /** The printed forms read nothing but the coordinates. */
  lemma TextReadsOnlyCoordinates(g1: Gaze, g2: Gaze, f1: Fixation, f2: Fixation, repr: Value -> string)
    requires g1.x == g2.x && g1.y == g2.y && f1.x == f2.x && f1.y == f2.y
    ensures GazeText(g1, repr) == GazeText(g2, repr)
    ensures FixationText(f1, repr) == FixationText(f2, repr)
  {
  }
}
