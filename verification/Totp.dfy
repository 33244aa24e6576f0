/** Time steps of one-time passwords (server/totp.go). Whether a code is right at
    a given instant is left open: it is a parameter. */
module Totp {
  import Framing

  const MAX_INT32 := 0x7FFF_FFFF
  const DEFAULT_PERIOD := 30
  const NANOSECONDS := 1_000_000_000

  /** Integer division as Go does it, towards zero. */
  function TruncDiv(a: int, b: int): int
    requires b > 0
  {
    if a >= 0 then a / b else -(-a / b)
  }

  /** The period, clamped from the unsigned number in the key's URL. */
  function Period(raw: nat): (p: nat)
    ensures 0 < p <= MAX_INT32
    ensures p == raw || (p == 30 && !(0 < raw <= MAX_INT32))
  {
    if 0 < raw <= MAX_INT32 then raw else DEFAULT_PERIOD
  }

  /** The offsets tried, in order. */
  const OFFSETS: seq<int> := [0, -1, 1]

  /** The duration the code multiplies out fits in an int64, so nothing wraps. */
  lemma DurationFits(raw: nat, offset: int)
    requires -1 <= offset <= 1
    ensures -Framing.TWO_63 <= offset * Period(raw) * NANOSECONDS < Framing.TWO_63
  {
    if offset == 1 {
      assert offset * Period(raw) == Period(raw);
    } else if offset == -1 {
      assert offset * Period(raw) == 0 - Period(raw) as int;
    }
  }

  /** CheckTotPCodeStep. `valid(at)` says whether the code is right at `at`,
      `now` is in seconds; `configured` is false when the key's algorithm or
      number of digits is unusable. */
  method CheckTotPCodeStep(configured: bool, raw: nat, now: int, valid: int -> bool) returns (step: int, ok: bool)
    ensures ok <==> configured && (valid(now) || valid(now - Period(raw)) || valid(now + Period(raw)))
    ensures ok ==>
              var at := if valid(now) then now else if valid(now - Period(raw)) then now - Period(raw) else now + Period(raw);
              step == TruncDiv(at, Period(raw))
    ensures ok ==> exists i :: 0 <= i < |OFFSETS| && Matched(valid, now, Period(raw), i) &&
                    step == TruncDiv(now + OFFSETS[i] * Period(raw), Period(raw))
    ensures !ok ==> step == 0
  {
    if !configured {
      return 0, false;
    }
    var period := Period(raw);
    assert OFFSETS[0] * period == 0 && OFFSETS[1] * period == -period && OFFSETS[2] * period == period;
    for i := 0 to |OFFSETS|
      invariant i > 0 ==> !valid(now)
      invariant i > 1 ==> !valid(now - period)
      invariant i > 2 ==> !valid(now + period)
      invariant forall k :: 0 <= k < i ==> !valid(now + OFFSETS[k] * period)
    {
      var at := now + OFFSETS[i] * period;
      if valid(at) {
        assert Matched(valid, now, period, i);
        return TruncDiv(at, period), true;
      }
    }
    return 0, false;
  }

  /** Offset number `i` is the first at which the code is right. */
  predicate Matched(valid: int -> bool, now: int, period: int, i: nat) {
    && i < |OFFSETS|
    && valid(now + OFFSETS[i] * period)
    && forall k :: 0 <= k < i ==> !valid(now + OFFSETS[k] * period)
  }

  /** The step reported is the current step plus the offset, except when the
      clock is inside the very first period and the previous one matched: the
      division then rounds a negative instant up to step 0. */
  lemma StepIsOffsetFromNow(now: nat, period: nat, offset: int)
    requires 0 < period && -1 <= offset <= 1
    ensures (TruncDiv(now + offset * period, period) == now / period + offset) <==> !(offset == -1 && 0 < now < period)
  {
    if offset == 0 {
      assert offset * period == 0;
    } else if offset == 1 {
      assert offset * period == period;
      DivShift(now, period);
    } else {
      assert offset * period == 0 - period as int;
      if now >= period {
        DivShift(now - period, period);
      } else {
        DivUnique(now, period, 0, now);
        var below := period - now;
        if now == 0 {
          DivUnique(below, period, 1, 0);
        } else {
          DivUnique(below, period, 0, below);
        }
      }
    }
  }

  lemma DivShift(a: nat, b: nat)
    requires 0 < b
    ensures (a + b) / b == a / b + 1
  {
    var q := a / b;
    assert (q + 1) * b == q * b + b;
    DivUnique(a + b, b, q + 1, a % b);
  }

  lemma AtLeastOnce(x: nat, b: nat)
    requires x >= 1
    ensures x * b >= b
  {
    assert x * b == b + (x - 1) * b;
  }

  lemma DivUnique(a: nat, b: nat, q: nat, r: nat)
    requires 0 < b && r < b && a == q * b + r
    ensures a / b == q
  {
    var q', r' := a / b, a % b;
    assert a == q' * b + r' && 0 <= r' < b;
    if q' < q {
      assert (q - q') * b == q * b - q' * b;
      AtLeastOnce(q - q', b);
    } else if q < q' {
      assert (q' - q) * b == q' * b - q * b;
      AtLeastOnce(q' - q, b);
    }
  }

  /** It happens: with a period longer than the time since 1970, the previous
      period's code is booked on the current step. */
  lemma FirstPeriodMisnumbered()
    ensures TruncDiv(1_000 + -1 * MAX_INT32, MAX_INT32) == 0 && 1_000 / MAX_INT32 + -1 == -1
  {}
}
