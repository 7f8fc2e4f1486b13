/** The Python values the modelled code reads out of SQLite rows, and the parts
    of Python's `int()` and `str()` it relies on. */
module PyValues {
  import opened Wrappers

  /** A column value as Python's sqlite3 module returns it. */
  datatype Value =
    | Int(i: int)               // INTEGER
    | Float(f: real)            // a finite REAL
    | NaN                       // a REAL holding NaN
    | Infinity(negative: bool)  // a REAL holding +inf or -inf
    | Text(s: string)           // TEXT
    | Null                      // NULL, read as None

  /** The exceptions the modelled code can raise. */
  datatype PyError =
    | ValueError
    | TypeError
    | OverflowError
    | IndexError
    | ZeroDivisionError
    | UnpackError(expected: nat, got: nat)  // the ValueError of a tuple unpacking of the wrong arity
    | IDBDoesNotMatch

  predicate Numeric(v: Value) {
    v.Int? || v.Float?
  }

  function AsReal(v: Value): real
    requires Numeric(v)
  {
    if v.Int? then v.i as real else v.f
  }

  predicate IsDigit(c: char) {
    '0' <= c <= '9'
  }

  predicate AllDigits(s: string) {
    forall k | 0 <= k < |s| :: IsDigit(s[k])
  }

  function DigitChar(d: nat): (c: char)
    requires d < 10
    ensures IsDigit(c)
  {
    ('0' as int + d) as char
  }

  function DigitValue(c: char): nat
    requires IsDigit(c)
  {
    c as int - '0' as int
  }

  /** The number a string of decimal digits denotes, most significant digit first. */
  function DigitsValue(s: string): nat
    requires AllDigits(s)
  {
    if |s| == 0 then 0 else DigitsValue(s[..|s| - 1]) * 10 + DigitValue(s[|s| - 1])
  }

  /** The decimal digits of n without leading zeros. */
  function Digits(n: nat): (s: string)
    ensures |s| > 0 && AllDigits(s)
    ensures DigitsValue(s) == n
  {
    if n < 10 then [DigitChar(n)]
    else
      var prefix := Digits(n / 10);
      var s := prefix + [DigitChar(n % 10)];
      assert s[..|s| - 1] == prefix;
      s
  }

  /** The ASCII characters `str.strip()` and `int()` treat as whitespace:
      tab through carriage return, the four separators 0x1C-0x1F, and space. */
  predicate IsSpace(c: char) {
    ('\t' <= c <= '\r') || (28 as char <= c <= 31 as char) || c == ' '
  }

  /** `s` without its leading whitespace. */
  function TrimStart(s: string): string {
    if |s| > 0 && IsSpace(s[0]) then TrimStart(s[1..]) else s
  }

  /** `s` without its trailing whitespace. */
  function TrimEnd(s: string): string {
    if |s| > 0 && IsSpace(s[|s| - 1]) then TrimEnd(s[..|s| - 1]) else s
  }

  /** `s.strip()`. */
  function Strip(s: string): string {
    TrimEnd(TrimStart(s))
  }

  /** Text that neither starts nor ends with whitespace is its own strip. */
  lemma StripUnpadded(s: string)
    requires |s| > 0 ==> !IsSpace(s[0]) && !IsSpace(s[|s| - 1])
    ensures Strip(s) == s
  {
  }

  /** The digits of `int(s)` once the whitespace is stripped: an optional sign
      followed by decimal digits. */
  function ParseSigned(s: string): Option<int> {
    if |s| > 0 && (s[0] == '-' || s[0] == '+') then
      if |s| > 1 && AllDigits(s[1..]) then
        var n: int := DigitsValue(s[1..]);
        Some(if s[0] == '-' then -n else n)
      else None
    else if |s| > 0 && AllDigits(s) then Some(DigitsValue(s))
    else None
  }

  /** Python's `int(s)` on a string: surrounding whitespace is ignored. */
  function ParseInt(s: string): Option<int> {
    ParseSigned(Strip(s))
  }

  /** Python's `str(i)` on an int. */
  function Decimal(i: int): (s: string)
    ensures ParseInt(s) == Some(i)
    ensures forall k | 0 <= k < |s| :: s[k] != ' ' && !IsSpace(s[k])
  {
    var s := if i < 0 then "-" + Digits(-i) else Digits(i);
    StripUnpadded(s);
    if i < 0 then
      var d := Digits(-i);
      assert ("-" + d)[1..] == d;
      "-" + d
    else Digits(i)
  }

  predicate AllSpace(s: string) {
    forall k | 0 <= k < |s| :: IsSpace(s[k])
  }

  lemma {:induction false} TrimStartPadding(pre: string, s: string)
    requires AllSpace(pre) && (|s| > 0 ==> !IsSpace(s[0]))
    ensures TrimStart(pre + s) == s
  {
    if |pre| > 0 {
      assert (pre + s)[1..] == pre[1..] + s;
      TrimStartPadding(pre[1..], s);
    } else {
      assert pre + s == s;
    }
  }

  lemma {:induction false} TrimEndPadding(s: string, post: string)
    requires AllSpace(post) && (|s| > 0 ==> !IsSpace(s[|s| - 1]))
    ensures TrimEnd(s + post) == s
  {
    if |post| > 0 {
      assert (s + post)[..|s + post| - 1] == s + post[..|post| - 1];
      TrimEndPadding(s, post[..|post| - 1]);
    } else {
      assert s + post == s;
    }
  }

  /** `int()` reads back `str(i)` whatever whitespace surrounds it. */
  lemma ParseIntIgnoresPadding(pre: string, i: int, post: string)
    requires AllSpace(pre) && AllSpace(post)
    ensures ParseInt(pre + Decimal(i) + post) == Some(i)
  {
    var d := Decimal(i);
    assert pre + d + post == pre + (d + post);
    TrimStartPadding(pre, d + post);
    TrimEndPadding(d, post);
    StripUnpadded(d);
  }

  /** Truncation toward zero, as Python's `int()` applies it to a float. */
  function Truncate(f: real): (n: int)
    ensures 0.0 <= f ==> n as real <= f < n as real + 1.0
    ensures f < 0.0 ==> n as real - 1.0 < f <= n as real
  {
    if f >= 0.0 then f.Floor else -((-f).Floor)
  }

  /** Python's `int(v)`: NaN and unparsable text raise ValueError, an infinity
      raises OverflowError, None raises TypeError. */
  function IntOf(v: Value): (r: Result<int, PyError>)
    ensures r.Ok? <==> v.Int? || v.Float? || (v.Text? && ParseInt(v.s).Some?)
    ensures r == Err(ValueError) <==> v.NaN? || (v.Text? && ParseInt(v.s).None?)
    ensures r.Err? ==> r.error == ValueError || r.error == OverflowError || r.error == TypeError
    ensures v.Float? && 0.0 <= v.f ==> r.value as real <= v.f < r.value as real + 1.0
    ensures v.Float? && v.f < 0.0 ==> r.value as real - 1.0 < v.f <= r.value as real
  {
    match v
    case Int(i) => Ok(i)
    case Float(f) => Ok(Truncate(f))
    case NaN => Err(ValueError)
    case Infinity(_) => Err(OverflowError)
    case Text(s) => (match ParseInt(s) case Some(n) => Ok(n) case None => Err(ValueError))
    case Null => Err(TypeError)
  }
}
