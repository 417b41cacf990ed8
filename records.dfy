/** The per-packet record of the delay calculator and the three predicates
    the pipeline filters, deduplicates and sorts records by. */
module Records {

  /** Media type code of the video records; every other record is dropped. */
  const VideoMediaType := 16

  /** One packet record: the nine parsed fields (protocol, source address,
      source port, destination address, SSRC, RTP timestamp, capture seconds,
      capture microseconds, media type), then the five fields the pipeline
      derives from them. */
  datatype Stats = Stats(
    ipProto: int, ipSrc: int, tpSrc: int, ipDst: int, ssrc: int,
    rtpTs: int, maxTsS: int, maxTsUs: int, mediaType: int,
    wallRtp: int, msTv: int, star0Rtp: int, star0Tv: int, absolute: int)

  /** The flow identity of a record: its 5-tuple-plus-SSRC key. */
  datatype FlowId = FlowId(ipProto: int, ipSrc: int, tpSrc: int, ipDst: int, ssrc: int)

  function Flow(s: Stats): FlowId {
    FlowId(s.ipProto, s.ipSrc, s.tpSrc, s.ipDst, s.ssrc)
  }

  /** True of every record that is not a video record. */
  predicate IsNotVideo(s: Stats)
  {
    s.mediaType != VideoMediaType
  }

  /** Two records are "equal" for deduplication when they belong to the same
      flow; the derived and timing fields play no part. */
  predicate AreStatsEqual(a: Stats, b: Stats)
    ensures AreStatsEqual(a, b) <==> Flow(a) == Flow(b)
  {
    a.ipProto == b.ipProto && a.ipSrc == b.ipSrc &&
    a.tpSrc == b.tpSrc && a.ipDst == b.ipDst &&
    a.ssrc == b.ssrc
  }

  /** The strict "less than" the records are sorted by. */
  predicate CompareStatsByRtpTs(a: Stats, b: Stats)
  {
    a.rtpTs < b.rtpTs
  }

  /** The parsed part of a record: the record with its derived fields cleared. */
  function Raw(s: Stats): Stats {
    s.(wallRtp := 0, msTv := 0, star0Rtp := 0, star0Tv := 0, absolute := 0)
  }

  /** CompareStatsByRtpTs is a strict weak order: irreflexive, transitive,
      and incomparability (equal timestamps) is transitive too. */
  lemma CompareStatsByRtpTsIsStrictWeakOrder(a: Stats, b: Stats, c: Stats)
    ensures !CompareStatsByRtpTs(a, a)
    ensures CompareStatsByRtpTs(a, b) && CompareStatsByRtpTs(b, c) ==> CompareStatsByRtpTs(a, c)
    ensures !CompareStatsByRtpTs(a, b) && !CompareStatsByRtpTs(b, a) &&
            !CompareStatsByRtpTs(b, c) && !CompareStatsByRtpTs(c, b) ==>
            !CompareStatsByRtpTs(a, c) && !CompareStatsByRtpTs(c, a)
  {
  }
}
