/** The two clock conversions of the delay calculator, in exact arithmetic.
    The source computes them in double precision and truncates the result
    toward zero when converting to an integer; here the arithmetic is exact
    and the truncation is written out. */
module Clock {

  /** The RTP video clock rate of RFC 3551, section 5, in ticks per second.
      The source calls it a rate "in kHz", but the value is in Hz. */
  const SamplingRateKhz := 90000

  /** Conversion of a number to an integer by truncation toward zero, as a
      C++ cast from double to int does. */
  function TruncToInt(x: real): (r: int)
    ensures 0.0 <= x ==> r as real <= x < r as real + 1.0
    ensures x < 0.0 ==> r as real - 1.0 < x <= r as real
  {
    if x >= 0.0 then x.Floor else -((-x).Floor)
  }

  /** Dafny's `/` on a non-negative dividend: the quotient is the largest
      multiple of d not above m. */
  lemma DivBounds(m: int, d: int)
    requires 0 <= m && 0 < d
    ensures 0 <= m / d
    ensures (m / d) * d <= m < (m / d) * d + d
  {
    var q, r := m / d, m % d;
    assert m == q * d + r && 0 <= r < d;
  }

  /** Integer division that truncates toward zero, as C++ `/` on int does
      (Dafny's own `/` is Euclidean). */
  function TruncDiv(n: int, d: int): (q: int)
    requires d > 0
    ensures 0 <= n ==> 0 <= q && q * d <= n < q * d + d
    ensures n < 0 ==> q <= 0 && q * d - d < n <= q * d
  {
    if n >= 0 then
      DivBounds(n, d);
      n / d
    else
      DivBounds(-n, d);
      assert -((-n) / d) * d == -(((-n) / d) * d);
      -((-n) / d)
  }

  /** RTP timestamp to milliseconds at the given clock rate. */
  function RtpTsToWallclockMs(rtpTs: int, samplingRateKhz: int): int
    requires samplingRateKhz != 0
  {
    TruncToInt(rtpTs as real / samplingRateKhz as real * 1000.0)
  }

  /** Seconds plus microseconds to milliseconds. */
  function TimevalToMs(tvSec: int, tvUsec: int): int
  {
    TruncToInt(tvSec as real * 1000.0 + tvUsec as real / 1000.0)
  }

  /** Truncation toward zero is the only integer meeting its bounds. */
  lemma TruncToIntUnique(x: real, q: int)
    requires 0.0 <= x ==> q as real <= x < q as real + 1.0
    requires x < 0.0 ==> q as real - 1.0 < x <= q as real
    ensures TruncToInt(x) == q
  {
  }

  /** Truncating division is odd: it rounds -n exactly as it rounds n. */
  lemma TruncDivIsOdd(n: int, d: int)
    requires d > 0
    ensures TruncDiv(-n, d) == -TruncDiv(n, d)
  {
  }

  /** For a positive rate the conversion is the truncated integer quotient
      rtpTs * 1000 / rate, never rounded up. */
  lemma RtpTsToWallclockMsTruncates(rtpTs: int, rate: int)
    requires rate > 0
    ensures RtpTsToWallclockMs(rtpTs, rate) == TruncDiv(rtpTs * 1000, rate)
  {
    var n := rtpTs * 1000;
    var q := TruncDiv(n, rate);
    var x := rtpTs as real / rate as real * 1000.0;
    QuotientScale(rtpTs as real, rate as real);
    assert x == n as real / rate as real;
    IntProductAsReal(q, rate);
    IntProductAsReal(q + 1, rate);
    IntProductAsReal(q - 1, rate);
    if 0 <= n {
      MulLeImpliesLeDiv(q as real, n as real, rate as real);
      DivLtImpliesMulLt((q + 1) as real, n as real, rate as real);
    } else {
      DivLeImpliesLeMul(q as real, n as real, rate as real);
      MulLtImpliesLtDiv((q - 1) as real, n as real, rate as real);
    }
    TruncToIntUnique(x, q);
  }

  lemma QuotientScale(a: real, c: real)
    requires c != 0.0
    ensures a / c * 1000.0 == (a * 1000.0) / c
  {
  }

  lemma IntProductAsReal(a: int, b: int)
    ensures (a * b) as real == a as real * b as real
  {
  }

  lemma MulLeImpliesLeDiv(a: real, b: real, c: real)
    requires c > 0.0 && a * c <= b
    ensures a <= b / c
  {
  }

  lemma DivLtImpliesMulLt(a: real, b: real, c: real)
    requires c > 0.0 && b < a * c
    ensures b / c < a
  {
  }

  lemma DivLeImpliesLeMul(a: real, b: real, c: real)
    requires c > 0.0 && b <= a * c
    ensures b / c <= a
  {
  }

  lemma MulLtImpliesLtDiv(a: real, b: real, c: real)
    requires c > 0.0 && a * c < b
    ensures a < b / c
  {
  }

  /** At the 90 kHz video clock a millisecond is 90 ticks: 89999 ticks give
      999 ms and 90001 ticks give 1000 ms. */
  lemma RtpTsToWallclockMsAt90kHz(rtpTs: int)
    ensures RtpTsToWallclockMs(rtpTs, SamplingRateKhz) == TruncDiv(rtpTs, 90)
    ensures RtpTsToWallclockMs(89999, SamplingRateKhz) == 999
    ensures RtpTsToWallclockMs(90001, SamplingRateKhz) == 1000
    ensures RtpTsToWallclockMs(-89999, SamplingRateKhz) == -999
  {
    forall t: int ensures RtpTsToWallclockMs(t, SamplingRateKhz) == TruncDiv(t, 90) {
      RtpTsToWallclockMsTruncates(t, SamplingRateKhz);
      assert TruncDiv(t * 1000, 90000) == TruncDiv(t, 90);
    }
  }

  /** The capture time conversion is the truncated integer quotient of the
      time in microseconds by 1000. */
  lemma TimevalToMsTruncates(tvSec: int, tvUsec: int)
    ensures TimevalToMs(tvSec, tvUsec) == TruncDiv(tvSec * 1000000 + tvUsec, 1000)
  {
    var n := tvSec * 1000000 + tvUsec;
    var x := tvSec as real * 1000.0 + tvUsec as real / 1000.0;
    assert x == n as real / 1000.0;
    TruncToIntUnique(x, TruncDiv(n, 1000));
  }

  /** For a non-negative capture time the conversion is
      seconds * 1000 + microseconds / 1000. */
  lemma TimevalToMsNonNegative(tvSec: int, tvUsec: int)
    requires 0 <= tvSec && 0 <= tvUsec
    ensures TimevalToMs(tvSec, tvUsec) == tvSec * 1000 + tvUsec / 1000
  {
    TimevalToMsTruncates(tvSec, tvUsec);
  }
}
