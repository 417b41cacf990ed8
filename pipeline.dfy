/** The whole delay computation: from the parsed records to the mean and
    median offset, through filter, deduplication, sort, clock conversion
    and baseline alignment, in that order. */
module Pipeline {
  import opened Records
  import opened Seqs
  import opened Clock
  import opened Normalize
  import opened Align
  import opened Summary

  datatype Result<T, E> = Success(value: T) | Failure(error: E)

  /** Too few records survive filtering and deduplication for the
      100-record baseline window; count is how many did. */
  datatype DelayError = InsufficientData(count: nat)

  datatype DelaySummary = DelaySummary(mean: real, median: real)

  /** The records that reach the sort: the video records with runs of one
      flow collapsed to their first record. */
  function Deduplicated(records: seq<Stats>): seq<Stats>
  {
    KeepFirstOfRuns(FilterVideo(records))
  }

  /** Every record that reaches the sort is a video record, and each of
      them is a record of the input. */
  lemma DeduplicatedAreVideo(records: seq<Stats>)
    ensures forall x :: x in Deduplicated(records) ==> x in records && x.mediaType == VideoMediaType
  {
    var f := FilterVideo(records);
    FilterVideoKeepsExactlyVideo(records);
    KeepFirstOfRunsKeepsRunStarts(f);
    FilterVideoAllVideo(records);
    forall x | x in Deduplicated(records) ensures x in records && x.mediaType == VideoMediaType {
      var k :| 0 <= k < |Deduplicated(records)| && Deduplicated(records)[k] == x;
      var j := RunStarts(f)[k];
      assert x == f[j] && f[j] in f;
      var m := VideoPositions(records)[j];
      assert f[j] == records[m];
    }
  }

  /** Runs the pipeline on the parsed records. Fewer than 100 records after
      filtering and deduplication is reported as InsufficientData; otherwise
      stats holds the records sorted by RTP timestamp (a sorted arrangement
      of the deduplicated records, here named sorted) with all derived fields
      filled in, and the result holds the mean and median offset. */
  method ProcessStats(records: seq<Stats>) returns (stats: seq<Stats>, result: Result<DelaySummary, DelayError>, ghost sorted: seq<Stats>)
    ensures SortedBy(sorted, RtpTsKey) && multiset(sorted) == multiset(Deduplicated(records))
    ensures |stats| == |sorted| == |Deduplicated(records)|
    ensures forall i :: 0 <= i < |stats| ==> Raw(stats[i]) == Raw(sorted[i]) && stats[i].mediaType == VideoMediaType
    ensures forall i :: 0 <= i < |stats| ==>
              stats[i].wallRtp == RtpTsToWallclockMs(sorted[i].rtpTs, SamplingRateKhz) &&
              stats[i].msTv == TimevalToMs(sorted[i].maxTsS, sorted[i].maxTsUs)
    ensures result.Failure? <==> |Deduplicated(records)| < BaselineWindow
    ensures result.Failure? ==> result.error == InsufficientData(|Deduplicated(records)|)
    ensures result.Success? ==>
              Enriched(stats, sorted) &&
              result.value == DelaySummary(Mean(Offsets(stats)), Median(Offsets(stats)))
  {
    stats := RemoveNonVideo(records);
    stats := EraseAdjacentDuplicates(stats);
    stats := SortByRtpTs(stats);
    sorted := stats;
    assert |sorted| == |multiset(sorted)| == |Deduplicated(records)|;
    DeduplicatedAreVideo(records);
    assert forall i :: 0 <= i < |sorted| ==> sorted[i].mediaType == VideoMediaType by {
      forall i | 0 <= i < |sorted| ensures sorted[i].mediaType == VideoMediaType {
        assert sorted[i] in multiset(sorted);
      }
    }
    stats := ConvertClocks(stats);
    if |stats| < BaselineWindow {
      result := Failure(InsufficientData(|stats|));
      return;
    }
    var converted := stats;
    stats := AlignToBaselines(converted);
    StagesEnrich(sorted, converted, stats);
    var mean, median := Summarize(stats);
    result := Success(DelaySummary(mean, median));
  }

  /** The end-to-end outcome when capture time and RTP time differ by the
      same d milliseconds in every record (and both window sums are
      non-negative): the baselines absorb d, so the reported mean and
      median are 0, whatever d is. */
  lemma ConstantLagReportsZero(stats: seq<Stats>, sorted: seq<Stats>, d: int)
    requires Enriched(stats, sorted)
    requires forall i :: 0 <= i < |stats| ==> stats[i].msTv - stats[i].wallRtp == d
    requires Sum(WallRtps(stats)[..BaselineWindow]) >= 0 && Sum(MsTvs(stats)[..BaselineWindow]) >= 0
    ensures Mean(Offsets(stats)) == 0.0 && Median(Offsets(stats)) == 0.0
  {
    ConstantLagCancels(stats, sorted, d);
    ConstantOffsets(Offsets(stats), 0);
  }
}
