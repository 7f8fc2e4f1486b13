/** `GetSaccadesOfGazesAndFixationGazes`: one pass over the time-ordered gazes
    that groups the valid gazes lying between fixations into saccades. The set
    of `system_time`s belonging to some fixation's gazes is an input (the source
    looks each one up in the database). */
module Saccades {
  import opened Wrappers
  import opened PyValues
  import opened EyeData

  type Saccade = seq<Gaze>

  predicate IsMember(g: Gaze, members: set<Value>) {
    g.systemTime in members
  }

  /** A gaze the segmenter places in a saccade: not a fixation member and not NaN. */
  predicate Kept(g: Gaze, members: set<Value>) {
    !IsMember(g, members) && IsNaN(g) == Ok(false)
  }

  /** A gaze whose validity test raises: the segmenter propagates the exception. */
  predicate Faults(g: Gaze, members: set<Value>) {
    !IsMember(g, members) && IsNaN(g).Err?
  }

  /** The kept gazes, in input order. */
  function KeptGazes(gazes: seq<Gaze>, members: set<Value>): seq<Gaze> {
    if |gazes| == 0 then []
    else (if Kept(gazes[0], members) then [gazes[0]] else []) + KeptGazes(gazes[1..], members)
  }

  function MemberCount(gazes: seq<Gaze>, members: set<Value>): nat {
    if |gazes| == 0 then 0
    else (if IsMember(gazes[0], members) then 1 else 0) + MemberCount(gazes[1..], members)
  }

  function Flatten(ss: seq<Saccade>): seq<Gaze> {
    if |ss| == 0 then [] else ss[0] + Flatten(ss[1..])
  }

  predicate AllNonEmpty(ss: seq<Saccade>) {
    forall k | 0 <= k < |ss| :: |ss[k]| > 0
  }

  /** The loop of the segmenter from some point on: `add` is the open saccade,
      `done` the saccades already closed. */
  function SegmentFrom(gazes: seq<Gaze>, members: set<Value>, add: Saccade, done: seq<Saccade>)
    : (r: Result<seq<Saccade>, PyError>)
    requires AllNonEmpty(done)
    ensures r.Ok? <==> forall k | 0 <= k < |gazes| :: !Faults(gazes[k], members)
    ensures r.Err? ==> exists k | 0 <= k < |gazes| :: Faults(gazes[k], members) && IsNaN(gazes[k]) == Err(r.error)
    ensures r.Ok? ==> AllNonEmpty(r.value)
    ensures r.Ok? ==> Flatten(r.value) == Flatten(done) + add + KeptGazes(gazes, members)
    ensures r.Ok? ==> |r.value| <= |done| + MemberCount(gazes, members) + 1
    decreases |gazes|
  {
    if |gazes| == 0 then
      if |add| != 0 then
        FlattenAppend(done, add);
        Ok(done + [add])
      else Ok(done)
    else
      var g := gazes[0];
      if IsMember(g, members) && |add| == 0 then
        SegmentFrom(gazes[1..], members, add, done)
      else if IsMember(g, members) then
        FlattenAppend(done, add);
        SegmentFrom(gazes[1..], members, [], done + [add])
      else
        match IsNaN(g)
        case Err(e) => Err(e)
        case Ok(nan) =>
          if !nan then SegmentFrom(gazes[1..], members, add + [g], done)
          else SegmentFrom(gazes[1..], members, add, done)
  }

  /** The saccades of a gaze sequence. */
  function Segment(gazes: seq<Gaze>, members: set<Value>): Result<seq<Saccade>, PyError> {
    SegmentFrom(gazes, members, [], [])
  }

  // ---- A reference segmentation ----

  /** The position of the first fixation member, or |gazes| when there is none. */
  function FirstMember(gazes: seq<Gaze>, members: set<Value>): (i: nat)
    ensures i <= |gazes|
    ensures i < |gazes| ==> IsMember(gazes[i], members)
    ensures forall j | 0 <= j < i :: !IsMember(gazes[j], members)
  {
    if |gazes| == 0 then 0
    else if IsMember(gazes[0], members) then 0
    else 1 + FirstMember(gazes[1..], members)
  }

  /** The saccades defined directly, independently of the loop:
      cut the gazes at every fixation member, keep the valid gazes of each
      block, and drop the blocks left empty. */
  function Runs(gazes: seq<Gaze>, members: set<Value>): seq<Saccade>
    decreases |gazes|
  {
    RunsAfter([], gazes, members)
  }

  /** `Runs` with the valid gazes `open` already gathered in front of the first block. */
  function RunsAfter(open: Saccade, gazes: seq<Gaze>, members: set<Value>): seq<Saccade>
    decreases |gazes|, 1
  {
    var i := FirstMember(gazes, members);
    var block := open + KeptGazes(gazes[..i], members);
    (if block == [] then [] else [block]) + (if i < |gazes| then Runs(gazes[i + 1..], members) else [])
  }

  /** The kept gazes of a block that starts with a non-member. */
  lemma KeptPrefixStep(gazes: seq<Gaze>, members: set<Value>, i: nat)
    requires 0 < i <= |gazes|
    ensures KeptGazes(gazes[..i], members)
            == (if Kept(gazes[0], members) then [gazes[0]] else []) + KeptGazes(gazes[1..][..i - 1], members)
  {
    assert gazes[..i][1..] == gazes[1..][..i - 1];
  }

  /** The loop computes the reference segmentation: from any point on, with
      `add` open and `done` closed, it appends `RunsAfter(add, ..)` to `done`,
      provided no validity test raises. */
  lemma {:induction false} SegmentFromIsRuns(gazes: seq<Gaze>, members: set<Value>, add: Saccade, done: seq<Saccade>)
    requires AllNonEmpty(done)
    requires forall k | 0 <= k < |gazes| :: !Faults(gazes[k], members)
    ensures SegmentFrom(gazes, members, add, done) == Ok(done + RunsAfter(add, gazes, members))
    decreases |gazes|
  {
    if |gazes| == 0 {
      EndStep(gazes, members, add, done);
    } else {
      var g := gazes[0];
      NoFaultsTail(gazes, members);
      if IsMember(g, members) && |add| == 0 {
        SegmentFromIsRuns(gazes[1..], members, add, done);
        SkipStep(gazes, members, add, done);
      } else if IsMember(g, members) {
        FlattenAppend(done, add);
        SegmentFromIsRuns(gazes[1..], members, [], done + [add]);
        CloseStep(gazes, members, add, done);
      } else {
        var add' := add + (if Kept(g, members) then [g] else []);
        SegmentFromIsRuns(gazes[1..], members, add', done);
        GatherStep(gazes, members, add, done);
      }
    }
  }

  lemma NoFaultsTail(gazes: seq<Gaze>, members: set<Value>)
    requires |gazes| > 0 && forall k | 0 <= k < |gazes| :: !Faults(gazes[k], members)
    ensures forall k | 0 <= k < |gazes[1..]| :: !Faults(gazes[1..][k], members)
  {
    forall k | 0 <= k < |gazes[1..]| ensures !Faults(gazes[1..][k], members) {
      assert gazes[1..][k] == gazes[k + 1];
    }
  }

  /** After the last gaze the open saccade is closed if it is not empty. */
  lemma EndStep(gazes: seq<Gaze>, members: set<Value>, add: Saccade, done: seq<Saccade>)
    requires AllNonEmpty(done) && |gazes| == 0
    ensures SegmentFrom(gazes, members, add, done) == Ok(done + RunsAfter(add, gazes, members))
  {
    assert gazes[..0] == [] && KeptGazes([], members) == [] && add + [] == add;
    assert RunsAfter(add, gazes, members) == (if add == [] then [] else [add]) + [];
    assert done + [] == done && [add] + [] == [add];
  }

  /** A member gaze with nothing open is skipped. */
  lemma SkipStep(gazes: seq<Gaze>, members: set<Value>, add: Saccade, done: seq<Saccade>)
    requires AllNonEmpty(done) && |gazes| > 0 && IsMember(gazes[0], members) && |add| == 0
    requires SegmentFrom(gazes[1..], members, add, done) == Ok(done + RunsAfter(add, gazes[1..], members))
    ensures SegmentFrom(gazes, members, add, done) == Ok(done + RunsAfter(add, gazes, members))
  {
    assert add == [] && gazes[..0] == [];
    assert RunsAfter(add, gazes, members) == Runs(gazes[1..], members);
  }

  /** A member gaze closes the open saccade. */
  lemma CloseStep(gazes: seq<Gaze>, members: set<Value>, add: Saccade, done: seq<Saccade>)
    requires AllNonEmpty(done) && |gazes| > 0 && IsMember(gazes[0], members) && |add| > 0
    requires AllNonEmpty(done + [add])
    requires SegmentFrom(gazes[1..], members, [], done + [add]) == Ok(done + [add] + RunsAfter([], gazes[1..], members))
    ensures SegmentFrom(gazes, members, add, done) == Ok(done + RunsAfter(add, gazes, members))
  {
    assert gazes[..0] == [] && add + [] == add;
    assert RunsAfter(add, gazes, members) == [add] + Runs(gazes[1..], members);
    assert done + [add] + Runs(gazes[1..], members) == done + ([add] + Runs(gazes[1..], members));
  }

  /** A non-member gaze joins the open saccade when it is valid and is passed
      over when it is NaN; either way the first block grows by its kept part. */
  lemma GatherStep(gazes: seq<Gaze>, members: set<Value>, add: Saccade, done: seq<Saccade>)
    requires AllNonEmpty(done) && |gazes| > 0 && !IsMember(gazes[0], members) && !Faults(gazes[0], members)
    requires var add' := add + (if Kept(gazes[0], members) then [gazes[0]] else []);
             SegmentFrom(gazes[1..], members, add', done) == Ok(done + RunsAfter(add', gazes[1..], members))
    ensures SegmentFrom(gazes, members, add, done) == Ok(done + RunsAfter(add, gazes, members))
  {
    var g := gazes[0];
    var add' := add + (if Kept(g, members) then [g] else []);
    var i := FirstMember(gazes, members);
    var i' := FirstMember(gazes[1..], members);
    assert i == i' + 1;
    KeptPrefixStep(gazes, members, i);
    assert add + KeptGazes(gazes[..i], members) == add' + KeptGazes(gazes[1..][..i'], members);
    assert i < |gazes| ==> gazes[i + 1..] == gazes[1..][i' + 1..];
    assert RunsAfter(add, gazes, members) == RunsAfter(add', gazes[1..], members);
    if Kept(g, members) {
      assert SegmentFrom(gazes, members, add, done) == SegmentFrom(gazes[1..], members, add + [g], done);
    } else {
      assert add' == add + [] == add;
      assert SegmentFrom(gazes, members, add, done) == SegmentFrom(gazes[1..], members, add, done);
    }
  }

  /** The segmenter returns exactly the reference segmentation whenever no
      validity test raises. */
  lemma SegmentIsRuns(gazes: seq<Gaze>, members: set<Value>)
    requires forall k | 0 <= k < |gazes| :: !Faults(gazes[k], members)
    ensures Segment(gazes, members) == Ok(Runs(gazes, members))
  {
    SegmentFromIsRuns(gazes, members, [], []);
    assert [] + RunsAfter([], gazes, members) == Runs(gazes, members);
  }

  lemma FlattenAppend(ss: seq<Saccade>, s: Saccade)
    ensures Flatten(ss + [s]) == Flatten(ss) + s
  {
    if |ss| == 0 {
      assert ss + [s] == [s];
    } else {
      assert (ss + [s])[1..] == ss[1..] + [s];
      FlattenAppend(ss[1..], s);
    }
  }

  lemma {:induction false} InFlatten(ss: seq<Saccade>, i: nat, j: nat)
    requires i < |ss| && j < |ss[i]|
    ensures ss[i][j] in Flatten(ss)
  {
    if i > 0 {
      InFlatten(ss[1..], i - 1, j);
    }
  }

  lemma {:induction false} KeptGazesAreKept(gazes: seq<Gaze>, members: set<Value>, g: Gaze)
    requires g in KeptGazes(gazes, members)
    ensures Kept(g, members) && g in gazes
  {
    if |gazes| > 0 && g !in (if Kept(gazes[0], members) then [gazes[0]] else []) {
      KeptGazesAreKept(gazes[1..], members, g);
    }
  }

  /** The segmenter's result is a partition of the kept gazes: no saccade is
      empty and the saccades, concatenated, are exactly the kept gazes in order;
      an exception escapes exactly when some non-member gaze's validity test raises. */
  lemma SegmentPartitions(gazes: seq<Gaze>, members: set<Value>)
    ensures Segment(gazes, members).Ok? <==> forall k | 0 <= k < |gazes| :: !Faults(gazes[k], members)
    ensures Segment(gazes, members).Ok? ==>
              AllNonEmpty(Segment(gazes, members).value)
              && Flatten(Segment(gazes, members).value) == KeptGazes(gazes, members)
  {
  }

  /** Each saccade closes at a fixation member, so there are at most one more
      saccades than member gazes. */
  lemma SegmentCountBound(gazes: seq<Gaze>, members: set<Value>)
    requires Segment(gazes, members).Ok?
    ensures |Segment(gazes, members).value| <= MemberCount(gazes, members) + 1
  {
  }

  lemma {:induction false} NoMembersNoBoundaries(gazes: seq<Gaze>)
    ensures MemberCount(gazes, {}) == 0
  {
    if |gazes| > 0 {
      NoMembersNoBoundaries(gazes[1..]);
    }
  }

  /** With no fixation members the segmenter returns at most one saccade,
      holding every valid gaze. */
  lemma SegmentWithoutFixations(gazes: seq<Gaze>)
    requires Segment(gazes, {}).Ok?
    ensures var kept := KeptGazes(gazes, {});
            Segment(gazes, {}).value == (if kept == [] then [] else [kept])
  {
    NoMembersNoBoundaries(gazes);
    var r := Segment(gazes, {}).value;
    var kept := KeptGazes(gazes, {});
    assert Flatten(r) == Flatten([]) + [] + kept;
    assert Flatten(r) == kept;
    assert |r| <= 1;
    if |r| == 1 {
      assert r[1..] == [];
      assert Flatten(r) == r[0] + Flatten(r[1..]) == r[0];
      assert r == [kept];
      assert kept != [];
    }
  }

  /** Every gaze of every saccade converts to int on both axes, so drawing the
      saccade's lines never raises. */
  lemma SaccadeGazesConvertible(gazes: seq<Gaze>, members: set<Value>, i: nat, j: nat)
    requires Segment(gazes, members).Ok?
    requires i < |Segment(gazes, members).value| && j < |Segment(gazes, members).value[i]|
    ensures var g := Segment(gazes, members).value[i][j];
            Convertible(g.x) && Convertible(g.y) && !IsMember(g, members) && g in gazes
  {
    var r := Segment(gazes, members).value;
    InFlatten(r, i, j);
    KeptGazesAreKept(gazes, members, r[i][j]);
  }

  lemma {:induction false} DropNaNFrom(gazes: seq<Gaze>, members: set<Value>, add: Saccade,
                                       done: seq<Saccade>, i: nat)
    requires AllNonEmpty(done)
    requires i < |gazes| && !IsMember(gazes[i], members) && IsNaN(gazes[i]) == Ok(true)
    ensures SegmentFrom(gazes[..i] + gazes[i + 1..], members, add, done)
            == SegmentFrom(gazes, members, add, done)
    decreases i
  {
    var rest := gazes[..i] + gazes[i + 1..];
    if i == 0 {
      assert rest == gazes[1..];
    } else {
      assert rest[0] == gazes[0];
      assert rest[1..] == gazes[1..][..i - 1] + gazes[1..][i..];
      var g := gazes[0];
      if IsMember(g, members) && |add| == 0 {
        DropNaNFrom(gazes[1..], members, add, done, i - 1);
      } else if IsMember(g, members) {
        DropNaNFrom(gazes[1..], members, [], done + [add], i - 1);
      } else if IsNaN(g).Ok? {
        if IsNaN(g) == Ok(false) {
          DropNaNFrom(gazes[1..], members, add + [g], done, i - 1);
        } else {
          DropNaNFrom(gazes[1..], members, add, done, i - 1);
        }
      }
    }
  }

  /** A NaN gaze outside every fixation neither extends nor closes a saccade:
      removing it leaves the result unchanged. */
  lemma DroppingNaNGazeChangesNothing(gazes: seq<Gaze>, members: set<Value>, i: nat)
    requires i < |gazes| && !IsMember(gazes[i], members) && IsNaN(gazes[i]) == Ok(true)
    ensures Segment(gazes[..i] + gazes[i + 1..], members) == Segment(gazes, members)
  {
    DropNaNFrom(gazes, members, [], [], i);
  }

  /** A gaze with only the fields the segmenter reads. */
  function SampleGaze(t: int, x: Value, y: Value): Gaze {
    Gaze(Null, Null, Null, Null, Null, Int(t), x, y, Null, Null, Null, Null,
         Null, Null, Null, Null, Null, Null, Null, Null, Null, Null)
  }

  /** Three gazes at t = 0, 10, 20 with the middle one NaN and no fixations:
      one saccade of the first and last gaze. */
  lemma NaNGazeDroppedExample()
    ensures var g0 := SampleGaze(0, Float(1.0), Float(1.0));
            var g1 := SampleGaze(10, NaN, NaN);
            var g2 := SampleGaze(20, Float(2.0), Float(2.0));
            Segment([g0, g1, g2], {}) == Ok([[g0, g2]])
  {
    var g0 := SampleGaze(0, Float(1.0), Float(1.0));
    var g1 := SampleGaze(10, NaN, NaN);
    var g2 := SampleGaze(20, Float(2.0), Float(2.0));
    assert IsNaN(g0) == Ok(false) && IsNaN(g1) == Ok(true) && IsNaN(g2) == Ok(false);
    assert [g0, g1, g2][1..] == [g1, g2];
    assert [g1, g2][1..] == [g2];
    assert [g0] + [g2] == [g0, g2];
    assert [] + [g0] == [g0];
    assert [] + [[g0, g2]] == [[g0, g2]];
    calc {
      Segment([g0, g1, g2], {});
      SegmentFrom([g0, g1, g2], {}, [], []);
      SegmentFrom([g0, g1, g2][1..], {}, [] + [g0], []);
      SegmentFrom([g1, g2], {}, [g0], []);
      SegmentFrom([g2], {}, [g0], []);
      SegmentFrom([], {}, [g0] + [g2], []);
      Ok([] + [[g0, g2]]);
      Ok([[g0, g2]]);
    }
  }

  /** Three gazes at t = 0, 10, 20 where the middle one belongs to a fixation:
      it splits the other two into two saccades. */
  lemma MemberSplitsExample()
    ensures var g0 := SampleGaze(0, Float(1.0), Float(1.0));
            var g1 := SampleGaze(10, Float(5.0), Float(5.0));
            var g2 := SampleGaze(20, Float(2.0), Float(2.0));
            Segment([g0, g1, g2], {Int(10)}) == Ok([[g0], [g2]])
  {
    var g0 := SampleGaze(0, Float(1.0), Float(1.0));
    var g1 := SampleGaze(10, Float(5.0), Float(5.0));
    var g2 := SampleGaze(20, Float(2.0), Float(2.0));
    var m: set<Value> := {Int(10)};
    assert IsNaN(g0) == Ok(false) && IsNaN(g2) == Ok(false);
    assert !IsMember(g0, m) && IsMember(g1, m) && !IsMember(g2, m);
    assert [g0, g1, g2][1..] == [g1, g2];
    assert [g1, g2][1..] == [g2];
    assert [] + [g0] == [g0] && [] + [g2] == [g2];
    assert [] + [[g0]] == [[g0]] && [[g0]] + [[g2]] == [[g0], [g2]];
    calc {
      Segment([g0, g1, g2], m);
      SegmentFrom([g0, g1, g2], m, [], []);
      SegmentFrom([g1, g2], m, [g0], []);
      SegmentFrom([g2], m, [], [[g0]]);
      SegmentFrom([], m, [g2], [[g0]]);
      Ok([[g0], [g2]]);
    }
  }
}
