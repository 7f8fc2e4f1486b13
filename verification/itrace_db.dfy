/** The checks and arithmetic of `iTraceDB`: recognising an iTrace Toolkit
    database by its table names, and the length of a session from its gaze
    system times. The SQL queries themselves are not modelled; their results
    are the inputs. */
module TraceDb {
  import opened Wrappers
  import opened PyValues

  /** The twelve tables of an iTrace Toolkit database. */
  const IdbTables: seq<string> := ["calibration", "calibration_point", "calibration_sample", "files",
                                    "fixation", "fixation_gaze", "fixation_run", "gaze", "ide_context",
                                    "participant", "session", "web_context"]

  /** `_verify` on the table names `sqlite_master` lists: exactly as many tables
      as expected, each one expected, otherwise IDBDoesNotMatch. */
  function Verify(tables: seq<string>): (r: Result<(), PyError>)
    ensures r.Ok? <==> |tables| == |IdbTables| && forall k | 0 <= k < |tables| :: tables[k] in IdbTables
    ensures r.Err? ==> r.error == IDBDoesNotMatch
  {
    if |tables| != |IdbTables| then Err(IDBDoesNotMatch)
    else if exists k | 0 <= k < |tables| :: tables[k] !in IdbTables then Err(IDBDoesNotMatch)
    else Ok(())
  }

  predicate Distinct<T(==)>(s: seq<T>) {
    forall i, j | 0 <= i < j < |s| :: s[i] != s[j]
  }

  function Elements<T>(s: seq<T>): set<T> {
    set x | x in s
  }

  lemma {:induction false} DistinctCardinality<T>(s: seq<T>)
    requires Distinct(s)
    ensures |Elements(s)| == |s|
  {
    if |s| > 0 {
      var t := s[1..];
      DistinctCardinality(t);
      assert Elements(s) == Elements(t) + {s[0]};
      assert s[0] !in Elements(t);
    }
  }

  lemma {:induction false} SubsetOfEqualSize<T>(a: set<T>, b: set<T>)
    requires a <= b && |a| == |b|
    ensures a == b
  {
    if a != b {
      var x :| x in b && x !in a;
      assert a <= b - {x};
      assert |b - {x}| == |b| - 1;
      SubsetCardinality(a, b - {x});
    }
  }

  lemma {:induction false} SubsetCardinality<T>(a: set<T>, b: set<T>)
    requires a <= b
    ensures |a| <= |b|
    decreases |b|
  {
    if a != {} {
      var x :| x in a;
      SubsetCardinality(a - {x}, b - {x});
    }
  }

  lemma IdbTablesDistinct()
    ensures Distinct(IdbTables)
  {
  }

  /** sqlite_master names are unique, so `_verify` accepts exactly the
      databases whose table set is the iTrace set. */
  lemma VerifyAcceptsExactlyTheIdbSet(tables: seq<string>)
    requires Distinct(tables)
    ensures Verify(tables).Ok? <==> Elements(tables) == Elements(IdbTables)
  {
    IdbTablesDistinct();
    DistinctCardinality(tables);
    DistinctCardinality(IdbTables);
    if Verify(tables).Ok? {
      assert Elements(tables) <= Elements(IdbTables);
      SubsetOfEqualSize(Elements(tables), Elements(IdbTables));
    }
    if Elements(tables) == Elements(IdbTables) {
      forall k | 0 <= k < |tables|
        ensures tables[k] in IdbTables
      {
        assert tables[k] in Elements(tables);
      }
    }
  }

  // ---- GetSessionTimeLength ----

  function Max(s: seq<int>): (m: int)
    requires |s| > 0
    ensures m in s && forall k | 0 <= k < |s| :: s[k] <= m
  {
    if |s| == 1 then s[0]
    else
      var rest := Max(s[1..]);
      assert forall k | 1 <= k < |s| :: s[k] == s[1..][k - 1];
      if s[0] >= rest then s[0] else rest
  }

  function Min(s: seq<int>): (m: int)
    requires |s| > 0
    ensures m in s && forall k | 0 <= k < |s| :: m <= s[k]
  {
    if |s| == 1 then s[0]
    else
      var rest := Min(s[1..]);
      assert forall k | 1 <= k < |s| :: s[k] == s[1..][k - 1];
      if s[0] <= rest then s[0] else rest
  }

  /** `(MAX(system_time) - MIN(system_time)) / 1000` over a session's gazes, in
      seconds: a session without gazes has NULL bounds, and subtracting them
      raises TypeError. */
  function SessionTimeLength(times: seq<int>): (r: Result<real, PyError>)
    ensures r.Err? <==> |times| == 0
    ensures r.Err? ==> r.error == TypeError
    ensures r.Ok? ==> r.value >= 0.0
    ensures r.Ok? ==> exists first, last | first in times && last in times ::
                        && r.value * 1000.0 == (last - first) as real
                        && forall k | 0 <= k < |times| :: first <= times[k] <= last
  {
    if |times| == 0 then Err(TypeError)
    else
      var first, last := Min(times), Max(times);
      Ok((last - first) as real / 1000.0)
  }

  /** A single-gaze session has length zero, and a further gaze never shortens
      a session. */
  lemma SessionTimeLengthFacts(times: seq<int>, t: int)
    ensures SessionTimeLength([t]) == Ok(0.0)
    ensures |times| > 0 ==> SessionTimeLength(times + [t]).value >= SessionTimeLength(times).value
  {
    if |times| > 0 {
      var both := times + [t];
      assert forall k | 0 <= k < |times| :: both[k] == times[k];
      assert Max(times) in both && Min(times) in both;
    }
  }

  /** The length does not depend on the order the gazes come in. */
  lemma SessionTimeLengthOrderFree(times: seq<int>, other: seq<int>)
    requires multiset(times) == multiset(other)
    ensures SessionTimeLength(times) == SessionTimeLength(other)
  {
    assert |times| == |multiset(times)| == |other|;
    if |times| > 0 {
      SameExtremes(times, other);
      SameExtremes(other, times);
    }
  }

  /** The extremes of a list are bounded by those of any list with the same elements. */
  lemma SameExtremes(a: seq<int>, b: seq<int>)
    requires |a| > 0 && |b| > 0 && multiset(a) == multiset(b)
    ensures Max(a) <= Max(b) && Min(b) <= Min(a)
  {
    var hi := Max(a);
    assert hi in multiset(b);
    var i :| 0 <= i < |b| && b[i] == hi;
    var lo := Min(a);
    assert lo in multiset(b);
    var j :| 0 <= j < |b| && b[j] == lo;
  }
}
