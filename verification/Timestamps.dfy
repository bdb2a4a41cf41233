/**
 System times as timestamps: microseconds from 2000-01-01, in an `i64`. An instant is held as
 its distance from that day in nanoseconds.
 */
module Timestamps {
  import opened Wrappers

  const I64_MIN: int := -0x8000_0000_0000_0000
  const I64_MAX: int := 0x7fff_ffff_ffff_ffff
  const TWO_64: int := 0x1_0000_0000_0000_0000
  type i64 = x: int | -0x8000_0000_0000_0000 <= x <= 0x7fff_ffff_ffff_ffff

  const USEC_PER_SEC: int := 1_000_000
  const NSEC_PER_USEC: int := 1_000
  const NSEC_PER_SEC: int := 1_000_000_000

  /** A `Duration`. */
  datatype Duration = Duration(secs: nat, nanos: nat)

  datatype Error = Overflow

  function Nanos(d: Duration): nat {
    d.secs * NSEC_PER_SEC + d.nanos
  }

  // The low 64 bits, read as an `i64`.
  function AsI64(x: nat): i64 {
    var low: int := x % 0x1_0000_0000_0000_0000;
    if low <= 0x7fff_ffff_ffff_ffff then low else low - 0x1_0000_0000_0000_0000
  }

  /** `from_sql`: the instant that lies so many microseconds from the day. */
  method FromSql(time: i64) returns (instant: int)
    ensures instant == time * NSEC_PER_USEC
  {
    var negative := time < 0;
    var magnitude: nat := if negative then -(time as int) else time;
    var secs := magnitude / USEC_PER_SEC;
    var nsec := (magnitude % USEC_PER_SEC) * NSEC_PER_USEC;
    var offset := Duration(secs, nsec);
    instant := if negative then -(Nanos(offset) as int) else Nanos(offset);
  }

  /** Whole microseconds towards the day. */
  function Truncated(instant: int): int {
    if instant >= 0 then instant / NSEC_PER_USEC else -(-instant / NSEC_PER_USEC)
  }

  /** What `to_sql` gives, with the arithmetic checked for overflow or wrapping. */
  function Encoded(instant: int, checked: bool): Result<i64, Error> {
    var usec := if instant >= 0 then instant / NSEC_PER_USEC else -instant / NSEC_PER_USEC;
    if checked && usec >= TWO_64 then Err(Overflow)
    else if instant >= 0 then Ok(AsI64(usec))
    else if AsI64(usec) == I64_MIN then (if checked then Err(Overflow) else Ok(I64_MIN))
    else Ok(-AsI64(usec))
  }

  // `to_usec`, in unsigned 64-bit arithmetic.
  method ToUsec(d: Duration, checked: bool) returns (r: Result<nat, Error>)
    requires d.nanos < NSEC_PER_SEC
    ensures checked && Nanos(d) / NSEC_PER_USEC >= TWO_64 ==> r == Err(Overflow)
    ensures !(checked && Nanos(d) / NSEC_PER_USEC >= TWO_64) ==>
      r.Ok? && r.value == if checked then Nanos(d) / NSEC_PER_USEC else (Nanos(d) / NSEC_PER_USEC) % TWO_64
  {
    MicrosOf(d);
    var product := d.secs * USEC_PER_SEC;
    if checked && product >= TWO_64 {
      return Err(Overflow);
    }
    var sum := product + d.nanos / NSEC_PER_USEC;
    if checked && sum >= TWO_64 {
      return Err(Overflow);
    }
    return Ok(if checked then sum else sum % TWO_64);
  }

  lemma MicrosOf(d: Duration)
    requires d.nanos < NSEC_PER_SEC
    ensures Nanos(d) / NSEC_PER_USEC == d.secs * USEC_PER_SEC + d.nanos / NSEC_PER_USEC
  {}

  method ToSql(instant: int, checked: bool) returns (r: Result<i64, Error>)
    ensures r == Encoded(instant, checked)
  {
    var distance := if instant >= 0 then instant else -instant;
    var d := Duration(distance / NSEC_PER_SEC, distance % NSEC_PER_SEC);
    assert Nanos(d) == distance;
    var usec := ToUsec(d, checked);
    if usec.Err? {
      return Err(Overflow);
    }
    var time := AsI64(usec.value);
    WrapOnce(distance / NSEC_PER_USEC);
    if instant >= 0 {
      return Ok(time);
    }
    if time == I64_MIN {
      return if checked then Err(Overflow) else Ok(I64_MIN);
    }
    return Ok(-time);
  }

  lemma WrapOnce(x: nat)
    ensures AsI64(x % TWO_64) == AsI64(x)
  {}

  /**
   Decoding then encoding is the identity on every count but the least, whose negation
   overflows; wrapping arithmetic brings even that one back.
   */
  lemma DecodeEncode(time: i64)
    ensures Encoded(time * NSEC_PER_USEC, true) == Ok(time) <==> time != I64_MIN
    ensures Encoded(time * NSEC_PER_USEC, false) == Ok(time)
  {
    var instant: int := time * NSEC_PER_USEC;
    if time >= 0 {
      assert instant / NSEC_PER_USEC == time;
    } else {
      assert -instant / NSEC_PER_USEC == -(time as int);
    }
  }

  /**
   Encoding truncates towards the day exactly when the truncated count fits and can be
   negated; beyond that the count wraps or overflows.
   */
  lemma EncodeTruncates(instant: int)
    ensures Encoded(instant, true) == Ok(Truncated(instant)) <==> -I64_MAX <= Truncated(instant) <= I64_MAX
    ensures Encoded(instant, false) == Ok(Truncated(instant)) <==> I64_MIN <= Truncated(instant) <= I64_MAX
  {}

  /** Truncation loses less than a microsecond and never crosses the day. */
  lemma TruncationIsClose(instant: int)
    ensures instant >= 0 ==>
      0 <= instant - Truncated(instant) * NSEC_PER_USEC < NSEC_PER_USEC && Truncated(instant) >= 0
    ensures instant < 0 ==> 0 <= Truncated(instant) * NSEC_PER_USEC - instant < NSEC_PER_USEC && Truncated(instant) <= 0
  {}

  /** Later instants never get earlier timestamps. */
  lemma EncodeIsMonotone(a: int, b: int)
    requires a <= b && -I64_MAX <= Truncated(a) && Truncated(b) <= I64_MAX
    ensures Encoded(a, true).Ok? && Encoded(b, true).Ok? && Encoded(a, true).value <= Encoded(b, true).value
  {
    EncodeTruncates(a);
    EncodeTruncates(b);
  }
}
