/**
 Timestamp precision: the token parser, the two server spellings, and the
 truncation of a nanosecond instant to the configured unit.
 */
module Options {
  import opened Base

  datatype TimestampPrecision = Nanoseconds | Microseconds | Milliseconds | Seconds

  /** `#[default]` precision. */
  const DefaultPrecision: TimestampPrecision := Nanoseconds

  /** Nanoseconds per unit of the precision. */
  function Scale(p: TimestampPrecision): (n: nat)
    ensures n > 0
  {
    match p
    case Nanoseconds => 1
    case Microseconds => 1_000
    case Milliseconds => 1_000_000
    case Seconds => 1_000_000_000
  }

  /**
   `v2_str`. The source spells microseconds as the two characters U+00C2
   U+00B5 followed by `s` (a UTF-8 `µ` that was decoded once too often).
   */
  function V2Str(p: TimestampPrecision): string {
    match p
    case Nanoseconds => "ns"
    case Microseconds => "\U{00C2}\U{00B5}s"
    case Milliseconds => "ms"
    case Seconds => "s"
  }

  /** `v3_str`. */
  function V3Str(p: TimestampPrecision): string {
    match p
    case Nanoseconds => "nanosecond"
    case Microseconds => "microsecond"
    case Milliseconds => "millisecond"
    case Seconds => "second"
  }

  /** The eight tokens `TryFrom<&str>` accepts, with the precision each names. */
  predicate Names(token: string, p: TimestampPrecision) {
    match p
    case Nanoseconds => token == "ns" || token == "nanosecond"
    case Microseconds => token == "us" || token == "microsecond"
    case Milliseconds => token == "ms" || token == "millisecond"
    case Seconds => token == "s" || token == "second"
  }

  /** `TryFrom<&str> for TimestampPrecision`. */
  function TryFrom(token: string): (r: Result<TimestampPrecision, Error>)
    ensures r.Ok? ==> Names(token, r.value)
    ensures (exists p :: Names(token, p)) ==> r.Ok?
    ensures r.Err? ==> r.error == InvalidTimestampPrecision(token)
  {
    if token == "ns" || token == "nanosecond" then Ok(Nanoseconds)
    else if token == "us" || token == "microsecond" then Ok(Microseconds)
    else if token == "ms" || token == "millisecond" then Ok(Milliseconds)
    else if token == "s" || token == "second" then Ok(Seconds)
    else Err(InvalidTimestampPrecision(token))
  }

  /**
   `process_timestamp`: the instant `t` (nanoseconds since the epoch) in
   whole units of `p`, rounded toward negative infinity as chrono's
   `timestamp_micros`, `timestamp_millis` and `timestamp` do. At nanosecond
   precision the value must fit an `i64`, or the source panics.
   */
  function ProcessTimestamp(p: TimestampPrecision, t: int): (r: int)
    requires p.Nanoseconds? ==> InI64(t)
    ensures r * Scale(p) <= t < (r + 1) * Scale(p)
  {
    t / Scale(p)
  }

  /** Every `v3_str` spelling parses back to its precision. */
  lemma V3RoundTrip(p: TimestampPrecision)
    ensures TryFrom(V3Str(p)) == Ok(p)
  {
  }

  /** The `v2_str` spellings parse back, except the one for microseconds. */
  lemma V2RoundTrip(p: TimestampPrecision)
    ensures !p.Microseconds? ==> TryFrom(V2Str(p)) == Ok(p)
    ensures p.Microseconds? ==> TryFrom(V2Str(p)).Err?
  {
  }

  lemma MulMonotone(x: int, y: int, c: nat)
    requires x <= y
    ensures x * c <= y * c
  {
  }

  lemma DivUnique(t: int, d: nat, q: int)
    requires d > 0 && q * d <= t < q * d + d
    ensures t / d == q
  {
    var q' := t / d;
    assert q' * d <= t < q' * d + d;
    if q' < q {
      MulMonotone(q' + 1, q, d);
    } else if q < q' {
      MulMonotone(q + 1, q', d);
    }
  }

  /** Truncation in two steps agrees with truncation in one. */
  lemma FloorDivNested(t: int, a: nat, b: nat)
    requires a > 0 && b > 0
    ensures (t / a) / b == t / (a * b)
  {
    var q := t / a;
    var r := q / b;
    assert q * a <= t < q * a + a;
    assert r * b <= q < r * b + b;
    MulMonotone(r * b, q, a);
    MulMonotone(q + 1, r * b + b, a);
    assert (r * b) * a == r * (a * b);
    assert (r * b + b) * a == r * (a * b) + a * b;
    DivUnique(t, a * b, r);
  }

  /** Coarsening is consistent: seconds = ms / 1000 = µs / 10^6, all floored. */
  lemma CoarseningConsistent(t: int)
    ensures ProcessTimestamp(Seconds, t) == ProcessTimestamp(Milliseconds, t) / 1_000
    ensures ProcessTimestamp(Milliseconds, t) == ProcessTimestamp(Microseconds, t) / 1_000
    ensures ProcessTimestamp(Seconds, t) == ProcessTimestamp(Microseconds, t) / 1_000_000
  {
    FloorDivNested(t, 1_000_000, 1_000);
    FloorDivNested(t, 1_000, 1_000);
    FloorDivNested(t, 1_000, 1_000_000);
  }
}
