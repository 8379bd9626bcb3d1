/** Conversion between chat.db timestamps (nanoseconds since 2001-01-01 UTC) and datetimes
    (microseconds since the same instant): plugins/imessage/helper_client.py and plugin.py.
    Both directions go through binary64 arithmetic. */
module AppleTime {
  import opened Float64

  /** 2^51 - 1 microseconds after 2001 (in the year 2072). `RoundTripFailsLater` shows that the
      conversion stops being exact right after. */
  const MAX_MICROS: nat := 2251799813685247
  const MAX_NANOS: nat := 2251799813685247000

  /** `apple_ns_to_datetime`: `timedelta(microseconds=ns / 1000)` rounds the float quotient half-even. */
  function ToMicros(ns: nat): (us: nat) {
    var us := RoundHalfEven(Round(ns as real / 1000.0));
    assert us >= 0;
    us
  }

  /** `_datetime_to_apple_ns`: `int(delta.total_seconds() * 1_000_000_000)`, truncating. */
  function ToNanos(us: nat): (ns: nat) {
    Round(Round(us as real / 1000000.0) * 1000000000.0).Floor
  }

  /** The watermark computed from a stored message whose chat.db date is `ns`. */
  function Watermark(ns: nat): nat {
    ToNanos(ToMicros(ns))
  }

  lemma {:induction false} ToNanosError(us: nat)
    requires us <= MAX_MICROS + 1
    ensures -368.0 <= ToNanos(us) as real - 1000.0 * us as real <= 367.0
  {
    var s := us as real / 1000000.0;
    assert Pow2(-21) == 1.0 / 2097152.0 by { PowersUsed(); }
    assert Pow2(8) == 256.0 by { PowersUsed(); }
    RoundingError(s, -21);
    var f := Round(s);
    RoundingError(f * 1000000000.0, 8);
  }

  lemma {:induction false} PowersUsed()
    ensures Pow2(-21) == 1.0 / 2097152.0
    ensures Pow2(-2) == 0.25
    ensures Pow2(-1) == 0.5
    ensures Pow2(8) == 256.0
  {
    assert Pow2(-7) == 1.0 / 128.0;
    assert Pow2(-14) == 1.0 / 16384.0;
    assert Pow2(-21) == 1.0 / 2097152.0;
    assert Pow2(4) == 16.0;
  }

  /** datetime -> nanoseconds -> datetime is the identity. */
  lemma {:induction false} MicrosRoundTrip(us: nat)
    requires us <= MAX_MICROS
    ensures ToMicros(ToNanos(us)) == us
  {
    ToNanosError(us);
    var q := ToNanos(us) as real / 1000.0;
    PowersUsed();
    RoundingError(q, -2);
  }

  /** nanoseconds -> datetime loses at most 625 ns. */
  lemma {:induction false} ToMicrosError(ns: nat)
    requires ns <= MAX_NANOS
    ensures -625.0 <= 1000.0 * ToMicros(ns) as real - ns as real <= 625.0
  {
    PowersUsed();
    RoundingError(ns as real / 1000.0, -2);
  }

  /** nanoseconds -> datetime -> nanoseconds is off by less than a microsecond. */
  lemma {:induction false} WatermarkError(ns: nat)
    requires ns <= MAX_NANOS
    ensures -1000 < Watermark(ns) - ns < 1000
  {
    ToMicrosError(ns);
    ToNanosError(ToMicros(ns));
  }

  lemma {:induction false} ToMicrosMonotone(a: nat, b: nat)
    requires a <= b
    ensures ToMicros(a) <= ToMicros(b)
  {
    RoundMonotone(a as real / 1000.0, b as real / 1000.0);
    RoundHalfEvenMonotone(Round(a as real / 1000.0), Round(b as real / 1000.0));
  }

  /** Beyond 2^51 microseconds the three roundings of a round trip are to multiples of 2^-21, 2^8 and
      2^-1: to `n1` and `n2` of the first two and `n3` of the third. */
  lemma {:induction false} TripBeyond(us: nat, n1: int, n2: int, n3: int)
    requires MAX_MICROS < us <= MAX_MICROS + 4 && P52 <= n2 as real * 256.0 / 500.0 < P53
    requires RoundHalfEven(us as real / 1000000.0 * 2097152.0) == n1
    requires P52 <= n1 as real / 2097152.0 * 1000000000.0 / 256.0 < P53
    requires RoundHalfEven(n1 as real / 2097152.0 * 1000000000.0 / 256.0) == n2
    requires RoundHalfEven(n2 as real * 256.0 / 500.0) == n3
    ensures ToNanos(us) == n2 * 256 && ToMicros(ToNanos(us)) == RoundHalfEven(n3 as real / 2.0)
  {
    PowersUsed();
    var s := us as real / 1000000.0;
    RoundInBinade(s * 2097152.0, -21);
    assert Round(s) == n1 as real / 2097152.0;
    RoundInBinade(n1 as real / 2097152.0 * 1000000000.0 / 256.0, 8);
    assert ToNanos(us) == n2 * 256;
    RoundInBinade(n2 as real * 256.0 / 500.0, -1);
    assert Round(ToNanos(us) as real / 1000.0) == n3 as real / 2.0;
  }

  /** The identity still holds at 2^51, 2^51 + 1 and 2^51 + 2 microseconds. */
  lemma {:induction false} RoundTripHoldsBeyond()
    ensures ToMicros(ToNanos(MAX_MICROS + 1)) == MAX_MICROS + 1
    ensures ToMicros(ToNanos(MAX_MICROS + 2)) == MAX_MICROS + 2
    ensures ToMicros(ToNanos(MAX_MICROS + 3)) == MAX_MICROS + 3
  {
    TripBeyond(MAX_MICROS + 1, 4722366482869645, 8796093022208000, 4503599627370496);
    TripBeyond(MAX_MICROS + 2, 4722366482869647, 8796093022208003, 4503599627370498);
    TripBeyond(MAX_MICROS + 3, 4722366482869649, 8796093022208007, 4503599627370500);
  }

  /** Three microseconds past 2^51 the round trip comes back one too late. */
  lemma {:induction false} RoundTripFailsLater()
    ensures ToMicros(ToNanos(MAX_MICROS + 4)) == MAX_MICROS + 5
  {
    TripBeyond(MAX_MICROS + 4, 4722366482869652, 8796093022208013, 4503599627370503);
  }

  /** datetime -> nanoseconds -> datetime is the identity up to `n` microseconds after 2001 if and only
      if `n` is less than 2^51 + 3. */
  lemma {:induction false} RoundTripEndsExactly(n: nat)
    ensures (forall us: nat :: us <= n ==> ToMicros(ToNanos(us)) == us) <==> n < MAX_MICROS + 4
  {
    RoundTripHoldsBeyond();
    RoundTripFailsLater();
    if n < MAX_MICROS + 4 {
      forall us: nat | us <= n ensures ToMicros(ToNanos(us)) == us {
        if us <= MAX_MICROS { MicrosRoundTrip(us); }
      }
    } else {
      assert ToMicros(ToNanos(MAX_MICROS + 4)) != MAX_MICROS + 4;
    }
  }

  /** The other way round sub-microsecond digits are lost: nanoseconds survive if and only if they are
      what the nearest whole microsecond converts to. */
  lemma {:induction false} NanosRoundTrip(ns: nat)
    requires ns <= MAX_NANOS
    ensures Watermark(ns) == ns <==> ToNanos((ns + 500) / 1000) == ns
  {
    var us := (ns + 500) / 1000;
    if Watermark(ns) == ns {
      MicrosInRange(ns);
      ToNanosError(ToMicros(ns));
      assert us == ToMicros(ns);
    }
    if ToNanos(us) == ns {
      MicrosRoundTrip(us);
    }
  }

  lemma {:induction false} MicrosInRange(ns: nat)
    requires ns <= MAX_NANOS
    ensures ToMicros(ns) <= MAX_MICROS
  {
    ToMicrosMonotone(ns, MAX_NANOS);
    PowersUsed();
    RoundInBinade(MAX_NANOS as real / 1000.0 * 4.0, -2);
    assert ToMicros(MAX_NANOS) == MAX_MICROS;
  }
}
