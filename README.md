# RTP delay calculator, modelled in Dafny

The delay calculator reads a table of per-packet records. Each record holds
the flow identity (protocol, source address, source port, destination
address, SSRC), the RTP timestamp, the capture time as seconds plus
microseconds, and the media type. From these it reports the offset between
the RTP clock and the capture clock. The pipeline runs in this order:

1. Keep the video records (media type 16).
2. Collapse each run of consecutive records of the same flow to the run's
   first record, as `std::unique` does.
3. Sort by RTP timestamp.
4. Convert both timestamps to milliseconds. The RTP clock runs at 90 000 Hz,
   the video clock of RFC 3551, section 5. Both conversions truncate toward
   zero.
5. Subtract from every record the truncated average of the first 100
   records, separately for each clock.
6. Take each record's offset as the difference of the two shifted
   timestamps, then report the mean and the median of the offsets.

The model has one module per stage:

- `Records`: the record and its three predicates.
- `Clock`: the conversions. They use exact rational arithmetic, with the
  truncation toward zero written out.
- `Seqs`: sums, sortedness and subsequences, plus the in-place array sort.
- `Normalize`: the filter, the deduplication and the sort.
- `Align`: clock conversion and baseline alignment.
- `Summary`: the mean and the median.
- `Pipeline`: the driver `ProcessStats`, which models the body of `main`.

Each stage is a method with a loop. It is proved against a specification
function (`FilterVideo`, `KeepFirstOfRuns`, `WindowAverage`, `Mean`,
`Median`), and lemmas state the properties of those functions.

Points where the model makes a behaviour explicit:

- **Fewer than 100 records.** The code reads records 0 to 99 without
  checking that they exist. The model reports this as
  `InsufficientData(count)`. This also covers the empty input, where the
  mean would divide by zero.
- **Deduplication is adjacency-only.** It happens before the sort, so
  records of one flow that are not neighbours both survive
  (`NonAdjacentDuplicatesSurvive`). The sort can then place two records of
  one flow side by side (`SortCanJoinDuplicates`). So "no two adjacent
  records share a flow" holds after deduplication, not of the final
  sequence.
- **A constant lag cancels.** Suppose capture time minus RTP time is the
  same d in every record and both window sums are non-negative. Then the
  baselines absorb d: every offset is 0 and the reported mean and median are
  0, not d (`ConstantLagCancels`, `ConstantLagReportsZero`). Every offset is
  the record's lag minus one shared baseline lag, so equal offsets mean
  equal lags. A constant offset c other than 0 therefore cannot occur when
  both window sums are non-negative (`ConstantOffsetIsZero`). A mean or
  median other than 0 needs lags that differ between records. This follows
  the code; it contradicts any expectation that a constant lag is reported
  as itself.

## Model

| member | source | states |
|---|---|---|
| `Records.AreStatsEqual` | delay_calculator.cpp:30-35 | two records are "equal" exactly when their flow identities (protocol, source, source port, destination, SSRC) coincide, so the relation is an equivalence |
| `Records.CompareStatsByRtpTsIsStrictWeakOrder` | delay_calculator.cpp:37-40 | the comparator is irreflexive and transitive, and equal timestamps are a transitive incomparability: the strict weak order the sort needs |
| `Clock.TruncToInt` | delay_calculator.cpp:44 | the cast to int truncates toward zero: a non-negative x gives the r with r <= x < r + 1, and a negative x the r with r - 1 < x <= r |
| `Clock.TruncDiv` | delay_calculator.cpp:118-119 | int division by a positive divisor truncates toward zero: q * d is within d of n on n's side of zero |
| `Clock.TruncDivIsOdd` | delay_calculator.cpp:118-119 | truncating division rounds -n exactly as it rounds n, unlike Euclidean division |
| `Clock.RtpTsToWallclockMsTruncates` | delay_calculator.cpp:42-45 | for every positive rate, the RTP conversion computed in exact arithmetic equals rtpTs * 1000 / rate truncated toward zero |
| `Clock.RtpTsToWallclockMsAt90kHz` | delay_calculator.cpp:99-106 | at the 90 000 Hz clock, the conversion computed in exact arithmetic is rtpTs / 90 truncated toward zero: 89999 gives 999, 90001 gives 1000, -89999 gives -999 |
| `Clock.TimevalToMsTruncates` | delay_calculator.cpp:47-50 | the capture time conversion equals (seconds * 1000000 + microseconds) / 1000 truncated toward zero |
| `Clock.TimevalToMsNonNegative` | delay_calculator.cpp:47-50 | for non-negative seconds and microseconds, the conversion is seconds * 1000 + microseconds / 1000 |
| `Seqs.SortByKey` | delay_calculator.cpp:96 | sorting in place leaves the array in non-decreasing key order and a permutation of what it held |
| `Seqs.AscendingUnique` | delay_calculator.cpp:143 | two ascending sequences of integers with the same elements are equal, so a sorted copy of the offsets is unique |
| `Normalize.RemoveNonVideo` | delay_calculator.cpp:86-88 | compacting the records that pass the filter to the front and cutting off the rest yields exactly the video records, in order |
| `Normalize.FilterVideoKeepsExactlyVideo` | delay_calculator.cpp:25-28 | the filtered sequence is the subsequence of the input at strictly increasing positions, and a position is among them exactly when its record is a video record |
| `Normalize.FilterVideoAllVideo` | delay_calculator.cpp:86-88 | every record that survives the filter has media type 16 |
| `Normalize.FilterVideoIdempotent` | delay_calculator.cpp:86-88 | a sequence of video records passes unchanged, so filtering twice equals filtering once |
| `Normalize.EraseAdjacentDuplicates` | delay_calculator.cpp:91-93 | comparing each record with the last record kept, as std::unique does, yields the first record of every run of same-flow records |
| `Normalize.KeepFirstOfRunsKeepsRunStarts` | delay_calculator.cpp:91-93 | the deduplicated sequence is the subsequence of the input at strictly increasing positions, and a position is among them exactly when it is 0 or its predecessor has another flow |
| `Normalize.KeepFirstOfRunsNoAdjacentEqual` | delay_calculator.cpp:91-93 | after deduplication no two adjacent records share a flow, and the last record kept has the flow of the last input record |
| `Normalize.KeepFirstOfRunsIdempotent` | delay_calculator.cpp:91-93 | a sequence without adjacent same-flow records is left unchanged, so deduplicating twice equals deduplicating once |
| `Normalize.NonAdjacentDuplicatesSurvive` | delay_calculator.cpp:91-93 | flows A, B, A (with A different from B) all survive deduplication |
| `Normalize.SortByRtpTs` | delay_calculator.cpp:96 | the result is in non-decreasing RTP timestamp order and is a permutation of the input |
| `Normalize.SortCanJoinDuplicates` | delay_calculator.cpp:91-96 | for flows A, B, A whose B record is latest, every sorted arrangement of the deduplicated records is A, A, B, with the two A records adjacent |
| `Align.ConvertClocks` | delay_calculator.cpp:104-108 | every record gets its RTP timestamp and its capture time in milliseconds at the 90 000 Hz clock; no other field and no position changes |
| `Align.BaselineAverages` | delay_calculator.cpp:111-119 | with at least 100 records, the two baselines are the sums of the first 100 millisecond timestamps divided by 100, truncated toward zero |
| `Align.WindowAverageBounds` | delay_calculator.cpp:111-119 | a baseline lies between the least and the greatest value in the 100-record window |
| `Align.WindowAverageShift` | delay_calculator.cpp:111-119 | shifting every window value by d shifts the baseline by d, provided both window sums are non-negative |
| `Align.BaselineIgnoresTail` | delay_calculator.cpp:113-117 | the baselines depend only on the millisecond timestamps of records 0 to 99; records from index 100 on do not affect them |
| `Align.SubtractBaselines` | delay_calculator.cpp:121-125 | each record's two shifted timestamps are its millisecond timestamps minus the two baselines; nothing else changes |
| `Align.ComputeOffsets` | delay_calculator.cpp:126-129 | each record's offset is its shifted capture time minus its shifted RTP time; nothing else changes |
| `Align.AlignToBaselines` | delay_calculator.cpp:111-129 | the baseline loops change only the three shifted and offset fields, using the baselines of the converted records, and those baselines are unchanged |
| `Align.StagesEnrich` | delay_calculator.cpp:104-129 | conversion followed by alignment yields records whose parsed fields and order are the input's, with every derived field as defined |
| `Align.OffsetIsLagMinusBaselineLag` | delay_calculator.cpp:121-129 | a record's offset is its own lag (capture ms minus RTP ms) minus the lag between the two baselines |
| `Align.ConstantLagCancels` | delay_calculator.cpp:121-129 | if every record has the same lag d and both window sums are non-negative, every offset is 0 |
| `Align.ConstantOffsetIsZero` | delay_calculator.cpp:111-129 | if every offset is the same c and both window sums are non-negative, then c is 0 |
| `Summary.Summarize` | delay_calculator.cpp:132-154 | the mean is the sum of the offsets over their count; the median is the midpoint rule on the offsets in ascending order, taken from a sorted copy |
| `Summary.SortedCopy` | delay_calculator.cpp:133-143 | sorting a copy of the offsets in place yields the one ascending arrangement of them |
| `Summary.MedianOfSortedCopy` | delay_calculator.cpp:142-154 | the midpoint rule on the sorted copy is the median of the offsets |
| `Summary.MedianIgnoresOrder` | delay_calculator.cpp:142-154 | the median depends only on the offsets as a multiset, not on their order |
| `Summary.MedianOfAscending` | delay_calculator.cpp:145-154 | on values already ascending, the median is the midpoint rule applied to them as they stand |
| `Summary.MedianEvenExample` | delay_calculator.cpp:145-150 | an even count averages the two middle values: [1, 2, 3, 4] gives 2.5 |
| `Summary.MedianOddExample` | delay_calculator.cpp:151-154 | an odd count takes the middle value: [1, 2, 3] gives 2 |
| `Summary.MedianUnsortedExample` | delay_calculator.cpp:143-154 | values are sorted before the midpoint rule applies: [3, 1, 2] gives 2 |
| `Summary.MeanBounds` | delay_calculator.cpp:140 | the mean lies between the least and the greatest offset |
| `Summary.MedianBounds` | delay_calculator.cpp:142-154 | the median lies between the least and the greatest offset |
| `Summary.ConstantOffsets` | delay_calculator.cpp:140-154 | when every offset is c, both the mean and the median are c |
| `Pipeline.DeduplicatedAreVideo` | delay_calculator.cpp:86-93 | every record that reaches the sort is a video record taken from the input |
| `Pipeline.ProcessStats` | delay_calculator.cpp:86-154 | the output is a permutation of the deduplicated video records, sorted by RTP timestamp, with unchanged parsed fields and all-video media type. It fails with InsufficientData exactly when fewer than 100 records remain. Otherwise every derived field is filled in and the result is the mean and median offset |
| `Pipeline.ConstantLagReportsZero` | delay_calculator.cpp:111-154 | with the same lag in every record and non-negative window sums, the reported mean and median are both 0 |

## Left out

- Command-line argument checking, the usage message and the exit codes (delay_calculator.cpp:54-58) are not modelled. They are process plumbing.
- Opening the file, discarding the header, reading lines and parsing them with `sscanf` (delay_calculator.cpp:62-83) are not modelled. These are I/O and a C library parser. `ProcessStats` takes the parsed records as its input sequence.
- Printing the mean and the median (delay_calculator.cpp:156-157) is not modelled. `ProcessStats` returns them instead.
- Clock.RtpTsToWallclockMs and Clock.TimevalToMs compute in exact rational arithmetic, not in IEEE double. The RTP conversion (delay_calculator.cpp:44) divides first and multiplies by 1000 afterwards. So when rtp_ts * 1000 / 90000 is an exact integer but rtp_ts / 90000 is not representable as a double, the double result can fall just below that integer and truncate to one lower than the model. For example, rtp_ts = 90450 gives 1004.9999999999999 in double, which truncates to 1004; the model gives 1005. The capture-time conversion (delay_calculator.cpp:49) is not known to differ for 32-bit inputs.
- Summary.Summarize returns the mean and the median as exact rationals, not as rounded doubles.
- 32-bit `int` overflow is not modelled. This covers the parsed fields (an RTP timestamp above 2^31 - 1), the running sums of lines 115-116 and 136, and the cast of a converted value back to `int`. Integers here are unbounded.
- Seqs.SortByKey is an insertion sort, not the `std::sort` algorithm. Only sortedness and permutation are specified. The order of records with equal RTP timestamps is left open, so `ProcessStats` names the arrangement it sorted into as a ghost output.
- The vector's in-place storage is not modelled. Each stage is a method from a sequence to a sequence, and the driver reassigns one local sequence. Only the two sorts work in place, on an array copy.
