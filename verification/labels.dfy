/** The list labels "name - id" that the database listings build and the
    playback window parses back into ids. The parse as written takes the piece
    after the FIRST separator; a name that itself contains the separator makes
    it read the wrong number. `ParseLabelIdLast` is the corrected parse. */
module Labels {
  import opened Wrappers
  import opened PyValues

  /** The separator between name and id. */
  const Sep: string := " - "

  /** The column of `session` that holds the session name. */
  const SessionNameColumn: nat := 9

  /** The column of `fixation_run` that holds the run's file name. */
  const RunNameColumn: nat := 3

  /** `name + " - " + str(id)` */
  function Label(name: string, id: int): string {
    name + Sep + Decimal(id)
  }

  predicate SepAt(s: string, i: int) {
    0 <= i && i + 3 <= |s| && s[i..i + 3] == Sep
  }

  predicate NoSpace(s: string) {
    forall k | 0 <= k < |s| :: s[k] != ' '
  }

  // ---- Python's `str.split(" - ")` ----

  /** The leftmost occurrence of the separator. */
  function FindSep(s: string): (r: Option<nat>)
    ensures r.Some? ==> SepAt(s, r.value) && forall j | 0 <= j < r.value :: !SepAt(s, j)
    ensures r.None? ==> forall j :: !SepAt(s, j)
    decreases |s|
  {
    if |s| < 3 then None
    else if s[..3] == Sep then Some(0)
    else
      assert !SepAt(s, 0) by { assert s[0..3] == s[..3]; }
      ShiftSep(s);
      match FindSep(s[1..])
      case None => None
      case Some(i) => Some(i + 1)
  }

  /** An occurrence past the first character is an occurrence in the tail. */
  lemma ShiftSep(s: string)
    requires |s| > 0
    ensures forall j | 1 <= j :: SepAt(s, j) <==> SepAt(s[1..], j - 1)
  {
    forall j | 1 <= j
      ensures SepAt(s, j) <==> SepAt(s[1..], j - 1)
    {
      if j + 3 <= |s| {
        assert s[j..j + 3] == s[1..][j - 1..j + 2];
      }
    }
  }

  /** `s.split(" - ")`: the pieces between leftmost non-overlapping occurrences. */
  function Split(s: string): (pieces: seq<string>)
    ensures |pieces| >= 1
    decreases |s|
  {
    match FindSep(s)
    case None => [s]
    case Some(i) => [s[..i]] + Split(s[i + 3..])
  }

  /** `int(text.split(" - ")[1])`, as the three selection handlers parse it. */
  function ParseLabelId(text: string): (r: Result<int, PyError>)
    ensures r.Err? <==> |Split(text)| < 2 || ParseInt(Split(text)[1]).None?
    ensures r.Err? ==> (if |Split(text)| < 2 then r.error == IndexError else r.error == ValueError)
  {
    var pieces := Split(text);
    if |pieces| < 2 then Err(IndexError)
    else match ParseInt(pieces[1])
      case None => Err(ValueError)
      case Some(n) => Ok(n)
  }

  lemma NoSpaceNoSep(s: string)
    requires NoSpace(s)
    ensures Split(s) == [s]
  {
    forall j | 0 <= j && j + 3 <= |s|
      ensures !SepAt(s, j)
    {
      assert s[j..j + 3][0] == s[j];
    }
  }

  /** A name that neither contains the separator nor ends in " -". */
  predicate CleanName(name: string) {
    && (forall j | 0 <= j < |name| :: !SepAt(name, j))
    && !(|name| >= 2 && name[|name| - 2..] == " -")
  }

  /** A non-empty clean name cannot start an occurrence at 0 of name + Sep + d. */
  lemma CleanNameNoSepAtStart(name: string, d: string)
    requires CleanName(name) && |name| > 0
    ensures (name + Sep + d)[..3] != Sep
  {
    var s := name + Sep + d;
    if |name| >= 3 {
      assert s[..3] == name[0..3];
      assert !SepAt(name, 0);
    } else if |name| == 2 {
      assert name[|name| - 2..] == name;
      if name[0] == ' ' {
        assert s[..3][1] == name[1];
      } else {
        assert s[..3][0] == name[0];
      }
    } else {
      assert s[..3][1] == ' ';
    }
  }

  /** Dropping the first character keeps a name clean. */
  lemma CleanNameTail(name: string)
    requires CleanName(name) && |name| > 0
    ensures CleanName(name[1..])
  {
    var rest := name[1..];
    forall j | 0 <= j < |rest|
      ensures !SepAt(rest, j)
    {
      if j + 3 <= |rest| {
        assert name[j + 1..j + 4] == rest[j..j + 3];
        assert !SepAt(name, j + 1);
      }
    }
    if |rest| >= 2 {
      assert rest[|rest| - 2..] == name[|name| - 2..];
    }
  }

  lemma {:induction false} FirstSepAfterCleanName(name: string, d: string)
    requires CleanName(name) && NoSpace(d)
    ensures FindSep(name + Sep + d) == Some(|name|)
    decreases |name|
  {
    var s := name + Sep + d;
    if |name| == 0 {
      assert s[..3] == Sep;
    } else {
      var tail := name[1..];
      assert s[1..] == tail + Sep + d;
      CleanNameNoSepAtStart(name, d);
      CleanNameTail(name);
      FirstSepAfterCleanName(tail, d);
      assert FindSep(s[1..]) == Some(|tail|);
      assert FindSep(s) == Some(|tail| + 1);
    }
  }

  /** The parse as written recovers the id whenever the name is clean. */
  lemma ParseLabelIdOfCleanName(name: string, id: int)
    requires CleanName(name)
    ensures ParseLabelId(Label(name, id)) == Ok(id)
  {
    var d := Decimal(id);
    var s := name + Sep + d;
    FirstSepAfterCleanName(name, d);
    assert s[..|name|] == name && s[|name| + 3..] == d;
    NoSpaceNoSep(d);
    assert Split(s) == [name, d];
  }

  /** A session called "a - 3" with id 7 is labelled "a - 3 - 7", and the parse
      as written reads 3: the wrong session is selected. */
  lemma SeparatorInNameMisparses()
    ensures ParseLabelId(Label("a - 3", 7)) == Ok(3)
  {
    var text := Label("a - 3", 7);
    assert Decimal(7) == "7";
    assert text == "a - 3 - 7";
    assert FindSep(text) == Some(1) by {
      assert text[..3][0] == 'a';
      assert text[1..][..3] == Sep;
    }
    var rest := text[4..];
    assert rest == "3 - 7";
    assert FindSep(rest) == Some(1) by {
      assert rest[..3][0] == '3';
      assert rest[1..][..3] == Sep;
    }
    assert text[..1] == [text[0]] == "a";
    assert rest[..1] == [rest[0]] == "3";
    assert |rest| == 5 && rest[4..] == [rest[4]] == "7";
    NoSpaceNoSep("7");
    assert Split(rest) == ["3", "7"];
    assert Split(text) == ["a", "3", "7"];
    assert ParseInt("3") == Some(3);
  }

  // ---- The corrected parse: the piece after the LAST separator ----

  /** The rightmost occurrence of the separator. */
  function FindLastSep(s: string): (r: Option<nat>)
    ensures r.Some? ==> SepAt(s, r.value) && forall j | r.value < j :: !SepAt(s, j)
    ensures r.None? ==> forall j :: !SepAt(s, j)
    decreases |s|
  {
    if |s| < 3 then None
    else if s[|s| - 3..] == Sep then Some(|s| - 3)
    else
      assert !SepAt(s, |s| - 3);
      DropLastSep(s);
      FindLastSep(s[..|s| - 1])
  }

  /** An occurrence in all but the last character is one that ends before it. */
  lemma DropLastSep(s: string)
    requires |s| > 0
    ensures forall j :: SepAt(s[..|s| - 1], j) <==> SepAt(s, j) && j + 3 < |s|
  {
    forall j
      ensures SepAt(s[..|s| - 1], j) <==> SepAt(s, j) && j + 3 < |s|
    {
      if 0 <= j && j + 3 < |s| {
        assert s[..|s| - 1][j..j + 3] == s[j..j + 3];
      }
    }
  }

  /** `int(text.rsplit(" - ", 1)[1])` */
  function ParseLabelIdLast(text: string): (r: Result<int, PyError>)
    ensures r.Err? <==> FindLastSep(text).None? || ParseInt(text[FindLastSep(text).value + 3..]).None?
    ensures r.Err? ==> (if FindLastSep(text).None? then r.error == IndexError else r.error == ValueError)
  {
    match FindLastSep(text)
    case None => Err(IndexError)
    case Some(i) =>
      match ParseInt(text[i + 3..])
      case None => Err(ValueError)
      case Some(n) => Ok(n)
  }

  /** The corrected parse recovers the id for every name whatsoever. */
  lemma ParseLabelIdLastRoundTrip(name: string, id: int)
    ensures ParseLabelIdLast(Label(name, id)) == Ok(id)
  {
    var d := Decimal(id);
    var s := name + Sep + d;
    assert SepAt(s, |name|);
    forall j | |name| < j
      ensures !SepAt(s, j)
    {
      if j + 3 <= |s| {
        if j == |name| + 1 {
          assert s[j..j + 3][0] == '-';
        } else if j == |name| + 2 {
          assert s[j..j + 3][2] == d[1];
        } else {
          assert s[j..j + 3][0] == d[j - |name| - 3];
        }
      }
    }
    var r := FindLastSep(s);
    assert r == Some(|name|);
    assert s[|name| + 3..] == d;
  }

  /** Both parses agree on every label whose name is clean. */
  lemma ParsesAgreeOnCleanNames(name: string, id: int)
    requires CleanName(name)
    ensures ParseLabelId(Label(name, id)) == ParseLabelIdLast(Label(name, id))
  {
    ParseLabelIdOfCleanName(name, id);
    ParseLabelIdLastRoundTrip(name, id);
  }

  // ---- The listings ----

  /** One listing row's label: `row[nameCol] + " - " + str(row[0])`. */
  function RowLabel(row: seq<Value>, nameCol: nat): (r: Result<string, PyError>)
    requires nameCol < |row| ==> row[0].Int?
    ensures r.Ok? <==> nameCol < |row| && row[nameCol].Text?
    ensures r.Ok? ==> r.value == Label(row[nameCol].s, row[0].i)
    ensures r.Err? ==> r.error == (if nameCol < |row| then TypeError else IndexError)
  {
    if nameCol >= |row| then Err(IndexError)
    else if !row[nameCol].Text? then Err(TypeError)
    else Ok(Label(row[nameCol].s, row[0].i))
  }

  predicate IdsAreInts(rows: seq<seq<Value>>, nameCol: nat) {
    forall k | 0 <= k < |rows| :: nameCol < |rows[k]| ==> rows[k][0].Int?
  }

  /** `GetSessions` (nameCol 9) and `GetFixationRuns` (nameCol 3): one label per
      row, in row order; the first row without a text name raises. */
  function Listing(rows: seq<seq<Value>>, nameCol: nat): (r: Result<seq<string>, PyError>)
    requires IdsAreInts(rows, nameCol)
    ensures r.Ok? <==> forall k | 0 <= k < |rows| :: RowLabel(rows[k], nameCol).Ok?
    ensures r.Ok? ==> |r.value| == |rows| && forall k | 0 <= k < |rows| :: r.value[k] == RowLabel(rows[k], nameCol).value
  {
    if |rows| == 0 then Ok([])
    else
      assert forall k | 1 <= k < |rows| :: rows[k] == rows[1..][k - 1];
      match RowLabel(rows[0], nameCol)
      case Err(e) => Err(e)
      case Ok(first) =>
        match Listing(rows[1..], nameCol)
        case Err(e) => Err(e)
        case Ok(rest) => Ok([first] + rest)
  }

  /** A failed listing reports the error of its first failing row. */
  lemma {:induction false} ListingFailsAtFirstBadRow(rows: seq<seq<Value>>, nameCol: nat)
    requires IdsAreInts(rows, nameCol) && Listing(rows, nameCol).Err?
    ensures exists k | 0 <= k < |rows| :: RowLabel(rows[k], nameCol) == Err(Listing(rows, nameCol).error)
                                       && forall j | 0 <= j < k :: RowLabel(rows[j], nameCol).Ok?
  {
    if RowLabel(rows[0], nameCol).Err? {
      assert RowLabel(rows[0], nameCol) == Err(Listing(rows, nameCol).error);
    } else {
      var tail := rows[1..];
      ListingFailsAtFirstBadRow(tail, nameCol);
      var k :| 0 <= k < |tail| && RowLabel(tail[k], nameCol) == Err(Listing(tail, nameCol).error)
               && forall j | 0 <= j < k :: RowLabel(tail[j], nameCol).Ok?;
      assert rows[k + 1] == tail[k];
      assert forall j | 1 <= j < k + 1 :: rows[j] == tail[j - 1];
      assert RowLabel(rows[k + 1], nameCol) == Err(Listing(rows, nameCol).error);
    }
  }

  /** Every label a listing produces parses back (with the corrected parse) to
      the id in its row. */
  lemma ListingParsesBack(rows: seq<seq<Value>>, nameCol: nat, k: nat)
    requires IdsAreInts(rows, nameCol) && Listing(rows, nameCol).Ok? && k < |rows|
    ensures ParseLabelIdLast(Listing(rows, nameCol).value[k]) == Ok(rows[k][0].i)
  {
    var row := rows[k];
    ParseLabelIdLastRoundTrip(row[nameCol].s, row[0].i);
  }
}
