/** Record normalisation: keep the video records, collapse runs of
    consecutive records of the same flow, and sort by RTP timestamp. */
module Normalize {
  import opened Records
  import opened Seqs

  /** The video records of s, in their original order. */
  function FilterVideo(s: seq<Stats>): seq<Stats>
  {
    if |s| == 0 then []
    else
      var n := |s| - 1;
      FilterVideo(s[..n]) + (if IsNotVideo(s[n]) then [] else [s[n]])
  }

  /** The positions of the video records of s, in increasing order. */
  function VideoPositions(s: seq<Stats>): seq<int>
  {
    if |s| == 0 then []
    else
      var n := |s| - 1;
      VideoPositions(s[..n]) + (if IsNotVideo(s[n]) then [] else [n])
  }

  /** The filter keeps exactly the video records: its result is the
      subsequence of s at the positions of the video records. */
  lemma {:induction false} FilterVideoKeepsExactlyVideo(s: seq<Stats>)
    ensures SubsequenceAt(FilterVideo(s), s, VideoPositions(s))
    ensures forall i :: 0 <= i < |s| ==> (i in VideoPositions(s) <==> !IsNotVideo(s[i]))
  {
    if |s| > 0 {
      var n := |s| - 1;
      var p := s[..n];
      FilterVideoKeepsExactlyVideo(p);
      var f, ps := FilterVideo(p), VideoPositions(p);
      assert n !in ps by {
        forall k | 0 <= k < |ps| ensures ps[k] != n {
          assert 0 <= ps[k] < |p|;
        }
      }
      if IsNotVideo(s[n]) {
        assert FilterVideo(s) == f && VideoPositions(s) == ps;
        SubsequenceAtWiden(f, s, ps);
      } else {
        assert FilterVideo(s) == f + [s[n]] && VideoPositions(s) == ps + [n];
        SubsequenceAtSnoc(f, s, ps);
      }
      forall i | 0 <= i < n ensures (i in VideoPositions(s) <==> !IsNotVideo(s[i])) {
        assert s[i] == p[i];
      }
    }
  }

  /** Every record the filter keeps is a video record. */
  lemma FilterVideoAllVideo(s: seq<Stats>)
    ensures forall x :: x in FilterVideo(s) ==> x.mediaType == VideoMediaType
  {
    FilterVideoKeepsExactlyVideo(s);
  }

  /** A sequence of video records passes the filter unchanged, so filtering
      twice is filtering once. */
  lemma {:induction false} FilterVideoIdempotent(s: seq<Stats>)
    ensures (forall i :: 0 <= i < |s| ==> !IsNotVideo(s[i])) ==> FilterVideo(s) == s
    ensures FilterVideo(FilterVideo(s)) == FilterVideo(s)
  {
    if forall i :: 0 <= i < |s| ==> !IsNotVideo(s[i]) {
      FilterVideoOfAllVideo(s);
    }
    var f := FilterVideo(s);
    FilterVideoAllVideo(s);
    forall i | 0 <= i < |f| ensures !IsNotVideo(f[i]) {
      assert f[i] in f;
    }
    FilterVideoOfAllVideo(f);
  }

  /** The filter leaves a sequence of video records unchanged. */
  lemma {:induction false} FilterVideoOfAllVideo(s: seq<Stats>)
    requires forall i :: 0 <= i < |s| ==> !IsNotVideo(s[i])
    ensures FilterVideo(s) == s
  {
    if |s| > 0 {
      var n := |s| - 1;
      FilterVideoOfAllVideo(s[..n]);
      assert s == s[..n] + [s[n]];
    }
  }

  /** Extending the input by one record extends the filtered sequence by
      that record exactly when it is a video record. */
  lemma FilterVideoStep(s: seq<Stats>, i: int)
    requires 0 <= i < |s|
    ensures FilterVideo(s[..i + 1]) == FilterVideo(s[..i]) + (if IsNotVideo(s[i]) then [] else [s[i]])
  {
    var t := s[..i + 1];
    assert t[..i] == s[..i];
  }

  /** Drops the non-video records, compacting the survivors to the front
      and cutting off the rest, as erase(remove_if(...)) does. */
  method RemoveNonVideo(stats: seq<Stats>) returns (r: seq<Stats>)
    ensures r == FilterVideo(stats)
  {
    var buf := stats;
    var w := 0;
    var i := 0;
    while i < |buf|
      invariant |buf| == |stats|
      invariant 0 <= w <= i <= |stats|
      invariant buf[..w] == FilterVideo(stats[..i])
      invariant forall k :: i <= k < |buf| ==> buf[k] == stats[k]
    {
      ghost var kept := buf[..w];
      assert buf[i] == stats[i];
      FilterVideoStep(stats, i);
      if !IsNotVideo(buf[i]) {
        buf := buf[w := buf[i]];
        w := w + 1;
        assert buf[..w] == kept + [stats[i]];
      } else {
        assert buf[..w] == kept;
      }
      i := i + 1;
    }
    assert stats[..i] == stats;
    r := buf[..w];
  }

  /** The first record of every run of consecutive records of the same
      flow: a record is kept when it is the first one or its predecessor in
      s belongs to another flow. */
  function KeepFirstOfRuns(s: seq<Stats>): seq<Stats>
  {
    if |s| == 0 then []
    else
      var n := |s| - 1;
      KeepFirstOfRuns(s[..n]) + (if n > 0 && AreStatsEqual(s[n - 1], s[n]) then [] else [s[n]])
  }

  /** The positions at which a run of records of one flow starts. */
  function RunStarts(s: seq<Stats>): seq<int>
  {
    if |s| == 0 then []
    else
      var n := |s| - 1;
      RunStarts(s[..n]) + (if n > 0 && AreStatsEqual(s[n - 1], s[n]) then [] else [n])
  }

  /** Record i of s starts a run: it is the first record or its
      predecessor belongs to another flow. */
  predicate IsRunStart(s: seq<Stats>, i: int)
    requires 0 <= i < |s|
  {
    i == 0 || !AreStatsEqual(s[i - 1], s[i])
  }

  /** Deduplication keeps exactly the first record of each run: its result
      is the subsequence of s at the positions where a run starts. */
  lemma KeepFirstOfRunsKeepsRunStarts(s: seq<Stats>)
    ensures SubsequenceAt(KeepFirstOfRuns(s), s, RunStarts(s))
    ensures forall i :: 0 <= i < |s| ==> (i in RunStarts(s) <==> IsRunStart(s, i))
  {
    RunStartsAreSubsequence(s);
    RunStartsAreRunStarts(s);
  }

  lemma {:induction false} RunStartsAreSubsequence(s: seq<Stats>)
    ensures SubsequenceAt(KeepFirstOfRuns(s), s, RunStarts(s))
  {
    if |s| > 0 {
      var n := |s| - 1;
      var p := s[..n];
      RunStartsAreSubsequence(p);
      var ps := RunStarts(p);
      assert forall k :: 0 <= k < |ps| ==> ps[k] < n && s[ps[k]] == p[ps[k]];
    }
  }

  lemma {:induction false} RunStartsAreRunStarts(s: seq<Stats>)
    ensures forall k :: 0 <= k < |RunStarts(s)| ==> 0 <= RunStarts(s)[k] < |s|
    ensures forall i :: 0 <= i < |s| ==> (i in RunStarts(s) <==> IsRunStart(s, i))
  {
    if |s| > 0 {
      var n := |s| - 1;
      var p := s[..n];
      RunStartsAreRunStarts(p);
      var ps := RunStarts(p);
      assert n !in ps;
      forall i | 0 <= i < n ensures (i in RunStarts(s) <==> IsRunStart(s, i)) {
        assert IsRunStart(s, i) == IsRunStart(p, i);
      }
    }
  }

  /** After deduplication no two adjacent records belong to the same flow,
      and the last record kept belongs to the flow of the last input record. */
  lemma {:induction false} KeepFirstOfRunsNoAdjacentEqual(s: seq<Stats>)
    ensures forall j :: 0 < j < |KeepFirstOfRuns(s)| ==>
      !AreStatsEqual(KeepFirstOfRuns(s)[j - 1], KeepFirstOfRuns(s)[j])
    ensures |s| > 0 ==>
              |KeepFirstOfRuns(s)| > 0 &&
              AreStatsEqual(KeepFirstOfRuns(s)[|KeepFirstOfRuns(s)| - 1], s[|s| - 1])
  {
    if |s| > 0 {
      var n := |s| - 1;
      KeepFirstOfRunsNoAdjacentEqual(s[..n]);
      assert n > 0 ==> s[..n][n - 1] == s[n - 1];
    }
  }

  /** A sequence with no two adjacent records of one flow is left unchanged,
      so deduplicating twice is deduplicating once. */
  lemma {:induction false} KeepFirstOfRunsIdempotent(s: seq<Stats>)
    ensures (forall j :: 0 < j < |s| ==> !AreStatsEqual(s[j - 1], s[j])) ==> KeepFirstOfRuns(s) == s
    ensures KeepFirstOfRuns(KeepFirstOfRuns(s)) == KeepFirstOfRuns(s)
  {
    if |s| > 0 {
      var n := |s| - 1;
      KeepFirstOfRunsIdempotent(s[..n]);
      assert s == s[..n] + [s[n]];
    }
    KeepFirstOfRunsNoAdjacentEqual(s);
    KeepFirstOfRunsOfRunFree(KeepFirstOfRuns(s));
  }

  lemma {:induction false} KeepFirstOfRunsOfRunFree(s: seq<Stats>)
    requires forall j :: 0 < j < |s| ==> !AreStatsEqual(s[j - 1], s[j])
    ensures KeepFirstOfRuns(s) == s
  {
    if |s| > 0 {
      var n := |s| - 1;
      KeepFirstOfRunsOfRunFree(s[..n]);
      assert s == s[..n] + [s[n]];
    }
  }

  /** Deduplication looks at neighbours only: a record of flow A, one of
      another flow, and A again all survive. */
  lemma NonAdjacentDuplicatesSurvive(a: Stats, b: Stats, a2: Stats)
    requires AreStatsEqual(a, a2) && !AreStatsEqual(a, b)
    ensures KeepFirstOfRuns([a, b, a2]) == [a, b, a2]
  {
    KeepFirstOfRunsOfRunFree([a, b, a2]);
  }

  /** Extending the input by one record extends the deduplicated sequence by
      that record exactly when the record starts a run. */
  lemma KeepFirstOfRunsStep(s: seq<Stats>, i: int)
    requires 0 < i < |s|
    ensures KeepFirstOfRuns(s[..i + 1]) ==
            KeepFirstOfRuns(s[..i]) + (if AreStatsEqual(s[i - 1], s[i]) then [] else [s[i]])
  {
    var t := s[..i + 1];
    assert t[..i] == s[..i];
    assert t[i - 1] == s[i - 1] && t[i] == s[i];
  }

  /** Removes each record whose flow equals that of the last record kept,
      compacting the kept ones to the front and cutting off the rest, as
      erase(unique(...)) does. */
  method EraseAdjacentDuplicates(stats: seq<Stats>) returns (r: seq<Stats>)
    ensures r == KeepFirstOfRuns(stats)
  {
    if |stats| == 0 {
      return [];
    }
    var buf := stats;
    var last := 0;
    var i := 1;
    assert stats[..1] == [stats[0]];
    while i < |buf|
      invariant |buf| == |stats|
      invariant 0 <= last < i <= |stats|
      invariant buf[..last + 1] == KeepFirstOfRuns(stats[..i])
      invariant forall k :: i <= k < |buf| ==> buf[k] == stats[k]
      invariant AreStatsEqual(buf[last], stats[i - 1])
    {
      ghost var kept := buf[..last + 1];
      assert buf[i] == stats[i];
      KeepFirstOfRunsStep(stats, i);
      if !AreStatsEqual(buf[last], buf[i]) {
        last := last + 1;
        buf := buf[last := buf[i]];
        assert buf[..last + 1] == kept + [stats[i]];
      } else {
        assert buf[..last + 1] == kept;
      }
      i := i + 1;
    }
    assert stats[..i] == stats;
    r := buf[..last + 1];
  }

  /** The key CompareStatsByRtpTs compares: sorting by it in non-decreasing
      order leaves no record comparing less than one before it. */
  function RtpTsKey(s: Stats): int { s.rtpTs }

  /** Sorts the records by RTP timestamp; records with equal timestamps
      come out in an unspecified order. */
  method SortByRtpTs(stats: seq<Stats>) returns (r: seq<Stats>)
    ensures SortedBy(r, RtpTsKey)
    ensures multiset(r) == multiset(stats)
  {
    var a := new Stats[|stats|](i requires 0 <= i < |stats| => stats[i]);
    assert a[..] == stats;
    SortByKey(a, RtpTsKey);
    r := a[..];
  }

  /** Deduplication happens before the sort, so the sort can bring two
      records of one flow together: of three records of flows A, B, A with
      the B record latest, the sorted order puts the two A records side by
      side. */
  lemma SortCanJoinDuplicates(a: Stats, b: Stats, a2: Stats, r: seq<Stats>)
    requires AreStatsEqual(a, a2) && !AreStatsEqual(a, b)
    requires a.rtpTs < a2.rtpTs < b.rtpTs
    requires SortedBy(r, RtpTsKey) && multiset(r) == multiset(KeepFirstOfRuns([a, b, a2]))
    ensures r == [a, a2, b] && AreStatsEqual(r[0], r[1])
  {
    NonAdjacentDuplicatesSurvive(a, b, a2);
    assert |r| == |multiset(r)| == 3;
    assert RtpTsKey(r[0]) <= RtpTsKey(r[1]) <= RtpTsKey(r[2]);
    ThreeByTimestamp(a, a2, b, r);
  }

  /** Three records with distinct timestamps, arranged in non-decreasing
      timestamp order, come out in order of their timestamps. */
  lemma ThreeByTimestamp(x: Stats, y: Stats, z: Stats, r: seq<Stats>)
    requires x.rtpTs < y.rtpTs < z.rtpTs
    requires |r| == 3 && r[0].rtpTs <= r[1].rtpTs <= r[2].rtpTs
    requires multiset(r) == multiset([x, z, y])
    ensures r == [x, y, z]
  {
    forall e ensures e in r <==> e == x || e == y || e == z {
      assert e in r <==> e in multiset(r);
    }
    assert r[0] in r && r[1] in r && r[2] in r;
    assert x in r && y in r && z in r;
  }
}
