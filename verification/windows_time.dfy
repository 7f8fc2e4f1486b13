/** `ConvertWindowsTime`: Windows FILETIME ticks (100 ns since 1601-01-01) to
    milliseconds since the Unix epoch. */
module WindowsTime {

  const TicksPerSecond: real := 10000000.0
  /** Seconds from 1601-01-01 to 1970-01-01. */
  const EpochGapSeconds: real := 11644473600.0

  /** The conversion as the source writes it: `((t / 10^7) - 11644473600) * 1000`. */
  function ConvertWindowsTime(t: real): (ms: real)
    ensures ms == t / 10000.0 - 11644473600000.0
  {
    ((t / TicksPerSecond) - EpochGapSeconds) * 1000.0
  }

  /** Unix milliseconds back to Windows ticks. */
  function UnixToWindows(ms: real): (t: real)
    ensures t == ms * 10000.0 + 116444736000000000.0
  {
    (ms / 1000.0 + EpochGapSeconds) * TicksPerSecond
  }

  lemma ConvertRoundTrip(t: real, ms: real)
    ensures UnixToWindows(ConvertWindowsTime(t)) == t
    ensures ConvertWindowsTime(UnixToWindows(ms)) == ms
  {
  }

  /** Later Windows times convert to later Unix times. */
  lemma ConvertStrictlyIncreasing(t1: real, t2: real)
    ensures t1 < t2 <==> ConvertWindowsTime(t1) < ConvertWindowsTime(t2)
  {
  }

  /** The Unix epoch in Windows ticks converts to 0 ms. */
  lemma ConvertUnixEpoch()
    ensures ConvertWindowsTime(116444736000000000.0) == 0.0
  {
  }
}
