/** Clock conversion and baseline alignment: every record gets its two
    timestamps in milliseconds, both shifted by the average of the first 100
    records, and their difference, the offset. */
module Align {
  import opened Records
  import opened Clock
  import opened Seqs

  /** The number of leading records the two baselines are averaged over. */
  const BaselineWindow := 100

  function WallRtps(s: seq<Stats>): seq<int>
  {
    seq(|s|, i requires 0 <= i < |s| => s[i].wallRtp)
  }

  function MsTvs(s: seq<Stats>): seq<int>
  {
    seq(|s|, i requires 0 <= i < |s| => s[i].msTv)
  }

  function Offsets(s: seq<Stats>): seq<int>
  {
    seq(|s|, i requires 0 <= i < |s| => s[i].absolute)
  }

  /** The average of the first 100 values, truncated toward zero. */
  function WindowAverage(xs: seq<int>): int
    requires |xs| >= BaselineWindow
  {
    TruncDiv(Sum(xs[..BaselineWindow]), BaselineWindow)
  }

  ghost function RtpBaseline(s: seq<Stats>): int
    requires |s| >= BaselineWindow
  {
    WindowAverage(WallRtps(s))
  }

  ghost function TvBaseline(s: seq<Stats>): int
    requires |s| >= BaselineWindow
  {
    WindowAverage(MsTvs(s))
  }

  /** The window average lies between the least and the greatest value in
      the window. */
  lemma WindowAverageBounds(xs: seq<int>, lo: int, hi: int)
    requires |xs| >= BaselineWindow
    requires forall i :: 0 <= i < BaselineWindow ==> lo <= xs[i] <= hi
    ensures lo <= WindowAverage(xs) <= hi
  {
    var w := xs[..BaselineWindow];
    SumBounds(w, lo, hi);
    var q := WindowAverage(xs);
    if Sum(w) >= 0 {
      assert q * 100 <= Sum(w) <= 100 * hi;
      assert 100 * lo <= Sum(w) < q * 100 + 100;
    } else {
      assert 100 * lo <= Sum(w) && q * 100 - 100 < Sum(w);
      assert Sum(w) <= q * 100 && Sum(w) <= 100 * hi;
    }
  }

  /** Shifting every value of the window by d shifts the average by d, as
      long as both window sums are non-negative (truncation toward zero
      rounds the two signs differently). */
  lemma WindowAverageShift(xs: seq<int>, ys: seq<int>, d: int)
    requires |xs| >= BaselineWindow && |ys| >= BaselineWindow
    requires forall i :: 0 <= i < BaselineWindow ==> ys[i] == xs[i] + d
    requires Sum(xs[..BaselineWindow]) >= 0 && Sum(ys[..BaselineWindow]) >= 0
    ensures WindowAverage(ys) == WindowAverage(xs) + d
  {
    SumShift(xs[..BaselineWindow], ys[..BaselineWindow], d);
    var sx := Sum(xs[..BaselineWindow]);
    assert Sum(ys[..BaselineWindow]) == sx + 100 * d;
    assert (sx + 100 * d) / 100 == sx / 100 + d;
  }

  /** The baselines depend on the first 100 records only, and on their
      millisecond timestamps only: records from index 100 on may change
      freely. */
  lemma BaselineIgnoresTail(s: seq<Stats>, t: seq<Stats>)
    requires |s| >= BaselineWindow && |t| >= BaselineWindow
    requires forall i :: 0 <= i < BaselineWindow ==> s[i].wallRtp == t[i].wallRtp && s[i].msTv == t[i].msTv
    ensures RtpBaseline(s) == RtpBaseline(t) && TvBaseline(s) == TvBaseline(t)
  {
    assert WallRtps(s)[..BaselineWindow] == WallRtps(t)[..BaselineWindow];
    assert MsTvs(s)[..BaselineWindow] == MsTvs(t)[..BaselineWindow];
  }

  /** Fills in both millisecond timestamps of every record, at the RTP video
      clock rate; nothing else changes. */
  method ConvertClocks(stats: seq<Stats>) returns (r: seq<Stats>)
    ensures |r| == |stats|
    ensures forall i :: 0 <= i < |r| ==>
              r[i] == stats[i].(wallRtp := RtpTsToWallclockMs(stats[i].rtpTs, SamplingRateKhz),
                                msTv := TimevalToMs(stats[i].maxTsS, stats[i].maxTsUs))
  {
    r := stats;
    var i := 0;
    while i < |r|
      invariant |r| == |stats| && 0 <= i <= |r|
      invariant forall k :: 0 <= k < i ==>
                  r[k] == stats[k].(wallRtp := RtpTsToWallclockMs(stats[k].rtpTs, SamplingRateKhz),
                                    msTv := TimevalToMs(stats[k].maxTsS, stats[k].maxTsUs))
      invariant forall k :: i <= k < |r| ==> r[k] == stats[k]
    {
      var stat := r[i];
      stat := stat.(wallRtp := RtpTsToWallclockMs(stat.rtpTs, SamplingRateKhz));
      stat := stat.(msTv := TimevalToMs(stat.maxTsS, stat.maxTsUs));
      r := r[i := stat];
      i := i + 1;
    }
  }

  /** The two baselines: the truncated averages of the millisecond
      timestamps of the first 100 records. */
  method BaselineAverages(stats: seq<Stats>) returns (rtpAverage: int, tvAverage: int)
    requires |stats| >= BaselineWindow
    ensures rtpAverage == RtpBaseline(stats) && tvAverage == TvBaseline(stats)
  {
    var rtpSum, tvSum := 0, 0;
    var i := 0;
    while i < BaselineWindow
      invariant 0 <= i <= BaselineWindow
      invariant rtpSum == Sum(WallRtps(stats)[..i]) && tvSum == Sum(MsTvs(stats)[..i])
    {
      assert WallRtps(stats)[..i + 1][..i] == WallRtps(stats)[..i];
      assert MsTvs(stats)[..i + 1][..i] == MsTvs(stats)[..i];
      rtpSum := rtpSum + stats[i].wallRtp;
      tvSum := tvSum + stats[i].msTv;
      i := i + 1;
    }
    rtpAverage := TruncDiv(rtpSum, BaselineWindow);
    tvAverage := TruncDiv(tvSum, BaselineWindow);
  }

  /** Shifts both millisecond timestamps of every record by its baseline;
      nothing else changes. */
  method SubtractBaselines(stats: seq<Stats>, rtpAverage: int, tvAverage: int) returns (r: seq<Stats>)
    ensures |r| == |stats|
    ensures forall i :: 0 <= i < |r| ==>
              r[i] == stats[i].(star0Rtp := stats[i].wallRtp - rtpAverage,
                                star0Tv := stats[i].msTv - tvAverage)
  {
    r := stats;
    var i := 0;
    while i < |r|
      invariant |r| == |stats| && 0 <= i <= |r|
      invariant forall k :: 0 <= k < i ==>
                  r[k] == stats[k].(star0Rtp := stats[k].wallRtp - rtpAverage,
                                    star0Tv := stats[k].msTv - tvAverage)
      invariant forall k :: i <= k < |r| ==> r[k] == stats[k]
    {
      r := r[i := r[i].(star0Rtp := r[i].wallRtp - rtpAverage, star0Tv := r[i].msTv - tvAverage)];
      i := i + 1;
    }
  }

  /** Sets the offset of every record to the difference of its two shifted
      timestamps; nothing else changes. */
  method ComputeOffsets(stats: seq<Stats>) returns (r: seq<Stats>)
    ensures |r| == |stats|
    ensures forall i :: 0 <= i < |r| ==>
              r[i] == stats[i].(absolute := stats[i].star0Tv - stats[i].star0Rtp)
  {
    r := stats;
    var i := 0;
    while i < |r|
      invariant |r| == |stats| && 0 <= i <= |r|
      invariant forall k :: 0 <= k < i ==> r[k] == stats[k].(absolute := stats[k].star0Tv - stats[k].star0Rtp)
      invariant forall k :: i <= k < |r| ==> r[k] == stats[k]
    {
      r := r[i := r[i].(absolute := r[i].star0Tv - r[i].star0Rtp)];
      i := i + 1;
    }
  }

  /** The baseline loops (the averages, the two shifted timestamps and the
      offset of every record), on converted records numbering at least 100;
      only the three shifted and offset fields change. */
  method AlignToBaselines(converted: seq<Stats>) returns (out: seq<Stats>)
    requires |converted| >= BaselineWindow
    ensures |out| == |converted|
    ensures RtpBaseline(out) == RtpBaseline(converted) && TvBaseline(out) == TvBaseline(converted)
    ensures forall i :: 0 <= i < |out| ==>
              out[i] == converted[i].(star0Rtp := converted[i].wallRtp - RtpBaseline(converted),
                                      star0Tv := converted[i].msTv - TvBaseline(converted),
                                      absolute := (converted[i].msTv - TvBaseline(converted))
                                                  - (converted[i].wallRtp - RtpBaseline(converted)))
  {
    var rtpAverage, tvAverage := BaselineAverages(converted);
    var shifted := SubtractBaselines(converted, rtpAverage, tvAverage);
    out := ComputeOffsets(shifted);
    assert WallRtps(out) == WallRtps(converted);
    assert MsTvs(out) == MsTvs(converted);
  }

  /** out is recs with every derived field filled in: the two millisecond
      timestamps, both shifted by the baselines of out itself, and the
      offset; the parsed fields and the order are those of recs. */
  ghost predicate Enriched(out: seq<Stats>, recs: seq<Stats>)
  {
    |out| == |recs| >= BaselineWindow &&
    forall i :: 0 <= i < |out| ==>
      Raw(out[i]) == Raw(recs[i]) &&
      out[i].wallRtp == RtpTsToWallclockMs(recs[i].rtpTs, SamplingRateKhz) &&
      out[i].msTv == TimevalToMs(recs[i].maxTsS, recs[i].maxTsUs) &&
      out[i].star0Rtp == out[i].wallRtp - RtpBaseline(out) &&
      out[i].star0Tv == out[i].msTv - TvBaseline(out) &&
      out[i].absolute == out[i].star0Tv - out[i].star0Rtp
  }

  /** Conversion followed by alignment yields the enriched records. */
  lemma StagesEnrich(recs: seq<Stats>, converted: seq<Stats>, out: seq<Stats>)
    requires |converted| == |recs| >= BaselineWindow
    requires forall i :: 0 <= i < |converted| ==>
               converted[i] == recs[i].(wallRtp := RtpTsToWallclockMs(recs[i].rtpTs, SamplingRateKhz),
                                        msTv := TimevalToMs(recs[i].maxTsS, recs[i].maxTsUs))
    requires |out| == |converted|
    requires RtpBaseline(out) == RtpBaseline(converted) && TvBaseline(out) == TvBaseline(converted)
    requires forall i :: 0 <= i < |out| ==>
               out[i] == converted[i].(star0Rtp := converted[i].wallRtp - RtpBaseline(converted),
                                       star0Tv := converted[i].msTv - TvBaseline(converted),
                                       absolute := (converted[i].msTv - TvBaseline(converted))
                                                   - (converted[i].wallRtp - RtpBaseline(converted)))
    ensures Enriched(out, recs)
  {
  }

  /** The offset of a record is its lag (capture time minus RTP time) minus
      the lag between the two baselines. */
  lemma OffsetIsLagMinusBaselineLag(out: seq<Stats>, recs: seq<Stats>, i: int)
    requires Enriched(out, recs) && 0 <= i < |out|
    ensures out[i].absolute == (out[i].msTv - out[i].wallRtp) - (TvBaseline(out) - RtpBaseline(out))
  {
  }

  /** A lag that is the same for every record cancels out: when capture
      time minus RTP time is d for every record (and both window sums are
      non-negative), every offset is 0, not d. */
  lemma ConstantLagCancels(out: seq<Stats>, recs: seq<Stats>, d: int)
    requires Enriched(out, recs)
    requires forall i :: 0 <= i < |out| ==> out[i].msTv - out[i].wallRtp == d
    requires Sum(WallRtps(out)[..BaselineWindow]) >= 0 && Sum(MsTvs(out)[..BaselineWindow]) >= 0
    ensures forall i :: 0 <= i < |out| ==> out[i].absolute == 0
  {
    WindowAverageShift(WallRtps(out), MsTvs(out), d);
  }

  /** A constant offset other than 0 cannot occur when both window sums are
      non-negative: equal offsets mean equal lags, and a constant lag
      cancels. */
  lemma ConstantOffsetIsZero(out: seq<Stats>, recs: seq<Stats>, c: int)
    requires Enriched(out, recs)
    requires forall i :: 0 <= i < |out| ==> out[i].absolute == c
    requires Sum(WallRtps(out)[..BaselineWindow]) >= 0 && Sum(MsTvs(out)[..BaselineWindow]) >= 0
    ensures c == 0
  {
    var d := c + (TvBaseline(out) - RtpBaseline(out));
    forall i | 0 <= i < |out| ensures out[i].msTv - out[i].wallRtp == d {
      OffsetIsLagMinusBaselineLag(out, recs, i);
    }
    ConstantLagCancels(out, recs, d);
    assert out[0].absolute == 0;
  }
}
