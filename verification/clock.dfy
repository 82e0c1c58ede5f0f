/** std::chrono durations: conversions truncate towards zero. */
module Clock {
  const NS_PER_MS: int := 1_000_000
  const NS_PER_S: int := 1_000_000_000

  /** `a / b` on int64: truncation towards zero. */
  function TruncDiv(a: int, b: int): int
    requires b != 0
  {
    var n, d := if a >= 0 then a else -a, if b >= 0 then b else -b;
    if (a >= 0) == (b >= 0) then n / d else -(n / d)
  }

  /** duration_cast<microseconds> of a nanosecond count. */
  function Micros(ns: int): int { if ns >= 0 then ns / 1_000 else -((-ns) / 1_000) }

  /** Whole microseconds of a time: the last before it, or after it for a negative one. */
  lemma {:induction false} MicrosWithin(ns: int)
    ensures if ns >= 0 then Micros(ns) * 1_000 <= ns < Micros(ns) * 1_000 + 1_000
            else Micros(ns) * 1_000 - 1_000 < ns <= Micros(ns) * 1_000
  {
  }

  lemma {:induction false} MillisWithin(ns: int)
    ensures if ns >= 0 then Millis(ns) * 1_000_000 <= ns < Millis(ns) * 1_000_000 + 1_000_000
            else Millis(ns) * 1_000_000 - 1_000_000 < ns <= Millis(ns) * 1_000_000
  {
  }

  /** Truncation: the quotient of the magnitudes, with the sign of the quotient. */
  lemma {:induction false} TruncWithin(a: int, b: int)
    requires b > 0
    ensures if a >= 0 then TruncDiv(a, b) * b <= a < TruncDiv(a, b) * b + b
            else TruncDiv(a, b) * b - b < a <= TruncDiv(a, b) * b
    ensures TruncDiv(a, -b) == -TruncDiv(a, b)
  {
  }

  /** duration_cast<milliseconds> of a nanosecond count. */
  function Millis(ns: int): int { if ns >= 0 then ns / 1_000_000 else -((-ns) / 1_000_000) }
}
