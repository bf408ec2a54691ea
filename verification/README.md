# Verified model of the heyp agents

heyp is a bandwidth-enforcement system. Host agents report usage to a cluster agent, which
aggregates it, decides which hosts to downgrade to a lower priority, and broadcasts allocations.
Go tools post-process the logs. This project models the parts of it where correctness is hard to
see from the code and proves what they promise, for all inputs, runs or schedules.

- **Time-series merge** (`TimeSeries`, `TsReader`, `TsBatch`, `SeriesJoin`, `MergePanics`,
  `TsMerger`): the buffered k-way merge refines a sample-and-hold join that is stated without
  buffers or cursors, and its panic is characterised on the input streams.
- **Wire format** (`Varint`, `Wire`, `WireGrammar`, `FlowMessages`, `FlowDecode`, `FlowMarshal`,
  `FlowUnmarshal`, `FlowFields`, `FlowMeaning`, `FlowRoundTrip`): exact sizes, backward marshalling, a
  grammar of fields that is stated without any reader, the messages as fields of it by number, what
  the decoders accept and compute on any bytes, and the round trip with its exact condition. The format is that of the
  Protocol Buffers Encoding specification, sections "Base 128 Varints", "Message Structure",
  "Length-Delimited Records" and "Groups".
- **Fast aggregator** (`ShardProtocol`, `ShardRuns`, `ShardProgress`, `Sampler`, `Snapshot`,
  `FastAggregation`): the double-buffered shards as an interleaved step system, safe and without dead
  ends, and the merge of their parts.
- **Fast controller** (`Selection`, `ChildStates`, `ControllerRuns`, `ControllerTasks`,
  `ControllerRound`, `HashRing`, `HashingSelector`, `FracControl`, `ControlLoop`): parallel updates
  under any schedule, exactly-once broadcast while listeners come and go, the hash ring behind the
  diffs, and the feedback loop.
- **Flow accounting** (`FlowSums`, `FlowConservation`, `FlowAccounting`, `FlowClocks`, `FlowTotals`,
  `FlowHistory`, `AggStates`, `FlowRecords`, `FlowAggregator`, `FlowLateness`, `FlowStages`,
  `FlowNetwork`): what `ForEachAgg` hands out over whole runs of an aggregator, with the times that
  decide which updates count, and any number of hosts that send to one cluster again and again.
- **Host stream** (`HostReactor`, `HostRuns`): the coalescing two-buffer writer, and all its runs
  with the stretches that do not hold the mutex split into steps.
- **Demand traces and histograms** (`DemandTrace`, `DemandReader`, `HistWindows`).
- **Grouping and fairness** (`JobViews`, `WaterLevel`, `MaxMinFairness`): job-level views, and the
  max-min fair water level found by a full sort, by partial sorts, and with the tiny-flow shortcut.

Objects whose methods update fields are classes, buffers worked on in place are arrays, loops stay
loops, and each such method is tied to a specification that the lemmas are about. Threads are step
systems: each atomic operation, mutex-held section or `OnID` callback is one step. Doubles are
reals, times are integers, and wrap-around is written out where the code relies on it. `hide`
statements close definitions that a proof does not need.

Some promises turn out not to hold for all inputs; each has its exact condition and an input that
breaks it.

- The merge of time series panics over readers that fill their slices if and only if some stretch of
  64 samples which one reader hands out together rounds to a single time, and every stream has a
  sample after all that this stream shows before (`TsMerging.MergeAll`, `MergePanics.WillPanic`;
  `MergePanics.BurstPanics` is such a stream). Readers that leave two distinct times never cause it.
- `skip` accepts more than the specification: exactly the fields of a relaxed grammar, in which the
  end of a group need not carry the number of its start (`WireGrammar.SkipAcceptsFields`,
  `WireGrammar.MismatchedEndIsSkipped`).
- An `AllocBundle` survives the round trip if and only if its unknown bytes, and those of its
  elements, are unknown fields of that grammar and no list element is nil
  (`FlowRoundTrip.BundleRoundTrip`, `FlowRoundTrip.NilElementIsLost`).
- `HostReactor` calls `Finish` twice if and only if a read and a write fail and each tests
  `finished_` before the other stores it, and it starts a read after `Finish` if and only if a read
  passes its test before a failed write stores the flag (`HostRuns.FinishedTwiceIffOverlap`,
  `HostRuns.ReadAfterFinishIffSlip`, with a schedule for each). A failed write drops the listener
  for good if and only if no registration is under way then and none begins later
  (`HostRuns.ListenerSurvivesIff`, `HostRuns.ListenerCanSurvive`).
- The bytes that `ForEachAgg` hands out for an aggregate are not always those of its flows: they are
  if and only if the update is not older than the one before it, or nothing has changed
  (`FlowRecords.ShownBytes`; `FlowLateness.LateReportIsDropped` is a run in which the parent has 100
  bytes and its children 150). With one bundler and reports in order no update is older.
- The diff that `HashRing::UpdateFrac` reports is not always the change it makes: rounding the
  difference of two fractions is not the difference of their roundings, and a decrease that rounds
  to no chunk reports the whole ring (`HashRings.DiffWorksIffExact`,
  `HashRings.TinyDecreaseDropsAll`).
- The merged usage of a snapshot is defined if and only if no volume is zero under a positive
  approval (`Snapshots.ConvertibleIff`, `Snapshots.ZeroVolumeIsNotConverted`).
- The merge of a snapshot keeps the generations of the first shard only, so the hosts of the seven
  others are not recorded as heard unless there are none (`FastAggregation.FastAggregator.GensAreAllIff`,
  `FastAggregation.SecondShardIsDropped`).
- The windows of `HistCombiner` cover properly only for a positive duration or at most one
  histogram (`HistWindows.Windows`, `HistWindows.ZeroDurationFails`).

`dafny verify dfyconfig.toml` checks the whole project.

## Model

| member | source | states |
|---|---|---|
| TimeSeries.RoundIdempotent | go/proc/timeseries.go:69-71 | rounding to the precision twice is rounding once, so carrying a rounded entry over is harmless |
| TimeSeries.RoundMonotone | go/proc/timeseries.go:69-71 | rounding keeps non-decreasing times non-decreasing |
| TimeSeries.RoundIsNearest | go/proc/timeseries.go:70 | a rounded time is a multiple of the precision, at most half of it later and less than half of it earlier; without a precision it is the time itself |
| TimeSeries.RoundedIsUnique | go/proc/timeseries.go:70 | no other value is that |
| TimeSeries.Dedup | go/proc/timeseries.go:72-79 | the deduplicated stream is never longer than the input and ends with its last entry |
| TimeSeries.DedupSelects | go/proc/timeseries.go:72-79 | every entry that survives is one of the input |
| TimeSeries.DedupKeepsLast | go/proc/timeseries.go:72-79 | for non-decreasing times the last entry of every run of equal times survives |
| TimeSeries.DedupKeepsOnlyLast | go/proc/timeseries.go:72-79 | for non-decreasing times every survivor is the last of its run: last wins |
| TimeSeries.DedupOrders | go/proc/timeseries.go:72-79 | non-decreasing input times give strictly increasing output times |
| TimeSeries.DedupAbsorbsPrefix | go/proc/timeseries.go:50-81 | deduplicating a batch and then its continuation is deduplicating the whole: batch borders do not show |
| TimeSeries.DedupIsShortIffOneTime | go/proc/timeseries.go:72-81 | a batch collapses to one entry exactly when all its rounded times are equal |
| TsReaders.TsReader.Read | go/proc/timeseries.go:114-116 | the reader contract: any number of the next entries, EOF only when none is left, or an error; a reader of the kind TwoTimes leaves two distinct rounded times whenever it reports no error, and one of the kind FillsSlice fills the slice unless its stream ends |
| TsReaders.TsReader.FillSlice | go/proc/timeseries.go:235-251 | InfoBundleReader fills every slot with the next entry, and reports its end or its error only when the stream ran out |
| TsReaders.CleanStep | go/proc/timeseries.go:235-251 | the next read of such a reader adds the 64 samples that end where it ends, and no other stretch |
| TsBatching.RoundInPlace | go/proc/timeseries.go:69-71 | every time in the filled part becomes the nearest multiple of the precision, halves up, the data stay, and the rest of the buffer is untouched |
| TsBatching.DedupInPlace | go/proc/timeseries.go:72-81 | the in-place compaction leaves Dedup of the filled part in front and returns its length |
| TsBatching.TsBatch.ReadIfNeeded | go/proc/timeseries.go:38-82 | refilling never changes the series still to be yielded, whatever the reader returns; afterwards the index is fine, the batch is done, or the read left one rounded time (and exactly then); a TwoTimes reader never starves the batch, and behind a FillsSlice reader it starves exactly when the stretch just read rounds to one time; it fails exactly if the reader reports an error |
| TsBatching.TsBatch.Refill | go/proc/timeseries.go:50-81 | carry-over and chunk, rounded and deduplicated, are what the buffer then holds; the "impossible state" panic is unreachable |
| TsBatching.TsBatch.CheckIndex | go/proc/timeseries.go:84-94 | the nested tests pass exactly when there is a later entry, or this one is the last and EOF was seen |
| TsBatching.TsBatch.CurTime | go/proc/timeseries.go:101-104 | where checkIndex passes, the time is that of the head of the series still to be yielded; where it fails after EOF, nothing is left |
| TsBatching.TsBatch.CurData | go/proc/timeseries.go:96-99 | where checkIndex passes, the data is that of the head of the series still to be yielded |
| TsBatching.TsBatch.Advance | go/proc/timeseries.go:106-108 | advancing drops exactly the head of the remaining series |
| TsBatching.TsBatch.Take | go/proc/timeseries.go:177-182 | the merger takes the head of the series and remembers it for later rows |
| TsBatching.HeadOfRemaining | go/proc/timeseries.go:84-108 | the buffered entry is the head of the deduplicated rest of the stream and passing it leaves the rest |
| TsBatching.RefillKeepsSeries | go/proc/timeseries.go:50-81 | pending entries plus unread stream denote the same series before and after a read |
| TsBatching.SeriesIsRounded | go/proc/timeseries.go:38-82 | the times of the yielded series are rounded |
| SeriesJoin.StepGivesRow | go/proc/timeseries.go:159-195 | once every series has started, the smallest current time with the held values is a row of the join |
| SeriesJoin.StepSkipsTime | go/proc/timeseries.go:172-197 | passing a time at which some series has not started leaves the rows complete up to the cursors |
| SeriesJoin.ExhaustedIsComplete | go/proc/timeseries.go:152-157 | when one series is used up the rows so far are the whole join |
| SeriesJoin.JoinIsUnique | go/proc/timeseries.go:146-199 | the declarative join (strictly increasing times, exactly the sampled times within all series, newest sample per column) has one solution |
| SeriesJoin.RowIsUnique | go/proc/timeseries.go:172-191 | a row of the join is determined by its time |
| SeriesJoin.RowsArePrefix | go/proc/timeseries.go:146-199 | the rows swept so far are the beginning of every complete join |
| TsMerging.OrderedSeries | go/proc/timeseries.go:146-199 | readers with non-decreasing times give strictly increasing columns |
| TsMerging.TsMerger.constructor | go/proc/timeseries.go:131-144 | a fresh merger has produced no row and its columns are the rounded, deduplicated reader streams, in order if the streams are |
| TsMerging.TsMerger.FillAll | go/proc/timeseries.go:152-157 | the refill loop: either every batch is ready or starved, as the kind of its reader says, or it stops at the first error or finished batch |
| TsMerging.TsMerger.FindMin | go/proc/timeseries.go:159-165 | the smallest current time over all batches |
| TsMerging.TsMerger.TakeTime | go/proc/timeseries.go:172-195 | one pass at a time: batches at that time move on, the others hold their last value; the pass gives a row of the join or skips a time that is not in it |
| TsMerging.TsMerger.Next | go/proc/timeseries.go:146-199 | each true result appends a row that holds the newest passed entry of every column; on streams in time order the rows so far begin every complete join, and a false result without error means that they are all of it; under TwoTimes readers it never panics; under FillsSlice readers with streams in order it panics only if the streams say so and ends only if they do not |
| TsMerging.MergeAll | go/proc/align.go:78-83 | the loop over Next, as a whole run: over FillsSlice readers with streams in time order and no read error it panics if and only if WillPanic holds of the streams; streams without a stuck stretch never panic, in any order; otherwise the rows are the join; it fails exactly if some reader has reported an error, so over readers that end with EOF and streams in order it either panics as foreseen or gives the whole join |
| MergePanics.StuckIsReached | go/proc/timeseries.go:159-165 | a column that gets stuck while no column has ended satisfies the condition on the streams |
| MergePanics.EndIsNotReached | go/proc/timeseries.go:152-157 | a column that ends while nothing passed lies beyond a stuck stretch refutes it |
| MergePanics.HeadIsBefore | go/proc/timeseries.go:84-94 | a column that can show its entry shows a time before every stuck stretch of its stream |
| MergePanics.SingleStream | go/proc/timeseries.go:146-199 | one stream in time order panics if and only if it has a stuck stretch |
| MergePanics.BurstPanics | go/proc/timeseries.go:235-251 | 64 samples within one period and then a later one: the merge panics |
| Varints.SovIsVarintLength | go/pb/heyp_vtproto.pb.go:1200-1202 | sov, computed from the bit length, is the number of bytes of the varint, for every 64-bit value |
| Varints.EncodeVarint | go/pb/heyp_vtproto.pb.go:833-843 | written into the buffer ending at offset, the bytes are the varint of the value and start sov(v) before it; nothing else changes |
| Varints.ReadVarintReads | go/pb/heyp_vtproto.pb.go:1211-1225 | reading at the place of a varint gives its value and the position after it, whatever follows |
| Varints.VarintAtMostTen | go/pb/heyp_vtproto.pb.go:1211-1225 | every 64-bit value fits the ten bytes the reader accepts |
| Varints.ParseVarint | go/pb/heyp_vtproto.pb.go:1211-1225 | the shift-and-or loop computes the value read, with its overflow and end-of-input errors |
| WireFormat.AsI64Inverts | go/pb/heyp_vtproto.pb.go:3098-3135 | the conversions between signed and unsigned 64-bit values are inverse |
| WireFormat.AsI32Inverts | go/pb/heyp_vtproto.pb.go:1373-1448 | a negative int32 survives being written as a 64-bit varint and truncated again |
| WireFormat.ConversionsWrap | go/pb/heyp_vtproto.pb.go:1373-1448 | the conversions between int64, uint64 and int32 keep the value up to multiples of the width, which with the range of the type fixes the result |
| WireFormat.ReadTagReads | go/pb/heyp_vtproto.pb.go:1226-1233 | a tag byte is read back as its field number and wire type |
| WireFormat.ReadBytesReads | go/pb/heyp_vtproto.pb.go:1235-1266 | a length-delimited record is read back as its bytes |
| WireFormat.ReadFixed64Reads | go/pb/heyp_vtproto.pb.go:1299-1308 | a little-endian fixed64 is read back as its value |
| WireFormat.LeByte | go/pb/heyp_vtproto.pb.go:96-101 | byte k of a fixed width is the digit of weight 256^k: little-endian |
| WireGrammar.Skip | go/pb/heyp_vtproto.pb.go:3262-3339 | the loop over nested groups ends inside the buffer exactly where one field of the relaxed grammar ends, groups of any depth included, and fails otherwise |
| WireGrammar.SkipAcceptsFields | go/pb/heyp_vtproto.pb.go:3262-3339 | skipping n bytes succeeds if and only if the first n bytes are one field of a grammar that is stated without the loop |
| WireGrammar.VarintErrors | go/pb/heyp_vtproto.pb.go:1211-1225 | an overflow is ten bytes that all have the top bit set, an unexpected end fewer that have it up to the end of the buffer, and there is no other error |
| WireGrammar.TagErrors | go/pb/heyp_vtproto.pb.go:1226-1233 | a tag is refused as an end of group exactly if its wire type is 4, and otherwise as illegal exactly if its number is not positive as an int32 |
| WireGrammar.BytesErrors | go/pb/heyp_vtproto.pb.go:1253-1264 | a payload that would end at 2^63 or later has an invalid length, any other that ends after the buffer an unexpected end |
| WireGrammar.RestOfGroup | go/pb/heyp_vtproto.pb.go:3319-3325 | what is skipped inside open groups is fields and then the end of the innermost group |
| WireGrammar.OnlyUnknownIffFields | go/pb/heyp_vtproto.pb.go:1481-1494 | bytes pass the default case of a message field by field if and only if they are a sequence of grammar fields with unknown numbers |
| WireGrammar.StandardFieldsAreUnknown | go/pb/heyp_vtproto.pb.go:1481-1494 | every sequence of fields that the specification allows, with unknown numbers, is among them |
| WireGrammar.SkipsStandardField | go/pb/heyp_vtproto.pb.go:3262-3339 | every field that the specification allows is skipped exactly, whatever follows it |
| WireGrammar.MismatchedEndIsSkipped | go/pb/heyp_vtproto.pb.go:3319-3325 | so is a group whose end carries another number, which the specification does not allow |
| WireFormat.OnlyUnknownShifts | go/pb/heyp_vtproto.pb.go:1481-1494 | whether bytes consist of unknown fields does not depend on what stands before them |
| FlowMessages.MarkerSizeIsExact | go/pb/heyp_vtproto.pb.go:844-889 | SizeVT of a FlowMarker is the length of its encoding |
| FlowMessages.AllocSizeIsExact | go/pb/heyp_vtproto.pb.go:1157-1178 | SizeVT of a FlowAlloc, nested message and length prefix included, is the length of its encoding |
| FlowMessages.AllocsSizeIsExact | go/pb/heyp_vtproto.pb.go:1179-1192 | the sizes of the list elements and their prefixes add up |
| FlowMessages.BundleSizeIsExact | go/pb/heyp_vtproto.pb.go:1179-1199 | SizeVT of an AllocBundle is the length of its encoding |
| FlowMarshal.PutVarint | go/pb/heyp_vtproto.pb.go:62-81 | a varint field with its tag, written backwards |
| FlowMarshal.PutFixed64 | go/pb/heyp_vtproto.pb.go:96-101 | a fixed64 field with its tag, written backwards |
| FlowMarshal.PutString | go/pb/heyp_vtproto.pb.go:55-61 | a string field with its length and tag, written backwards; nothing for an empty string |
| FlowMarshal.MarshalMarker | go/pb/heyp_vtproto.pb.go:43-117 | backward marshalling fills the last SizeVT bytes with exactly the encoding, which FlowFields.MarkerIsFields describes field by field, and leaves the rest of the buffer alone |
| FlowMarshal.MarshalAlloc | go/pb/heyp_vtproto.pb.go:748-781 | the same for FlowAlloc with its nested FlowMarker, present or nil |
| FlowMarshal.PutAllocs | go/pb/heyp_vtproto.pb.go:817-829 | the backward loop over the list writes the elements in order |
| FlowMarshal.MarshalBundleTo | go/pb/heyp_vtproto.pb.go:801-831 | the same for AllocBundle |
| FlowMarshal.MarshalBundle | go/pb/heyp_vtproto.pb.go:783-794 | a buffer of SizeVT bytes is filled exactly: the index ends at 0 and the bytes are the encoding |
| FlowFields.MarkerIsFields | go/pb/heyp_vtproto.pb.go:55-117 | the bytes of a FlowMarker are fields of the specification: 1 source and 2 destination data centre, 3 host id, 4 and 5 addresses, 6 protocol, 7 and 8 ports, 9 sequence number, 10 job, each only if not empty or zero, and then the unknown bytes |
| FlowFields.AllocIsFields | go/pb/heyp_vtproto.pb.go:748-781 | those of a FlowAlloc are 1 the nested marker, even an empty one, 2 the HIPRI and 3 the LOPRI limit, and the unknown bytes |
| FlowFields.BundleIsFields | go/pb/heyp_vtproto.pb.go:801-831 | those of an AllocBundle are one field 1 for each element in order, nil ones empty, 2 the generation, and the unknown bytes |
| FlowUnmarshal.ParseMarker | go/pb/heyp_vtproto.pb.go:1206-1502 | the decoding loop computes UnmarshalMarker, merging into the fields the message already has |
| FlowUnmarshal.ParseAlloc | go/pb/heyp_vtproto.pb.go:3033-3157 | the same for FlowAlloc |
| FlowUnmarshal.ParseBundle | go/pb/heyp_vtproto.pb.go:3158-3261 | the same for AllocBundle |
| FlowUnmarshal.ParseUnknown | go/pb/heyp_vtproto.pb.go:1481-1494 | the bytes of one field of the relaxed grammar are taken and kept; it fails exactly when no such field starts there |
| FlowMeaning.MarkerMeans | go/pb/heyp_vtproto.pb.go:1206-1502 | on any bytes: decoding succeeds if and only if they are a sequence of grammar fields in which each known number has its wire type, and then it sets, in order, the field that each number from 1 to 10 stands for, keeping unknown ones byte for byte |
| FlowMeaning.MarkerAppends | go/pb/heyp_vtproto.pb.go:1206-1502 | decoding x followed by y is decoding y onto the result of x: later values win |
| FlowMeaning.AllocMeans | go/pb/heyp_vtproto.pb.go:3033-3157 | the same for FlowAlloc, where the payload of flow must itself be a FlowMarker in this sense |
| FlowMeaning.AllocAppends | go/pb/heyp_vtproto.pb.go:3033-3157 | and for two stretches of bytes |
| FlowMeaning.NestedMerges | go/pb/heyp_vtproto.pb.go:3080-3097 | two flow fields are merged: they count as one whose payload is the first followed by the second |
| FlowMeaning.BundleMeans | go/pb/heyp_vtproto.pb.go:3158-3261 | the same for AllocBundle, where every element must be a FlowAlloc in this sense |
| FlowMeaning.BundleAppends | go/pb/heyp_vtproto.pb.go:3158-3261 | and for two stretches of bytes |
| FlowMeaning.ListsAppend | go/pb/heyp_vtproto.pb.go:3216-3219 | the elements of the second stretch come after those of the first |
| FlowRoundTrip.MarkerRoundTrip | go/pb/heyp_vtproto.pb.go:43-117 | decoding an encoded FlowMarker gives it back if and only if its unknown bytes are a sequence of grammar fields with numbers the message does not know |
| FlowRoundTrip.MarkerKeepsFields | go/pb/heyp_vtproto.pb.go:1481-1494 | any such sequence is appended to the unknown bytes of the message, byte for byte |
| FlowRoundTrip.AllocRoundTrip | go/pb/heyp_vtproto.pb.go:748-781 | the same for FlowAlloc, nil or empty nested message and negative limits included: its own unknown bytes and those of the nested message decide |
| FlowRoundTrip.BundleRoundTrip | go/pb/heyp_vtproto.pb.go:801-831 | the same for AllocBundle: with unknown fields at every level the decoder returns the message with nil list elements made empty; it returns the message itself if and only if there is none |
| FlowRoundTrip.NilElementIsLost | go/pb/heyp_vtproto.pb.go:817-829 | a list of one nil element comes back as a list of one empty element |
| FlowUnmarshal.MarshalThenUnmarshal | go/pb/heyp_vtproto.pb.go:783-794 | from value to bytes to value through both loops: the same exact condition |
| ShardProtocol.StepKeeps | heyp/cluster-agent/fast-aggregator.cc:61-83 | every atomic step of every writer and of the collector keeps the shard invariant |
| ShardProtocol.SwapKeeps | heyp/cluster-agent/fast-aggregator.cc:61-72 | a writer's compare-exchange, won or lost, keeps the invariant: the winner is the only holder of the active buffer |
| ShardProtocol.PushKeeps | heyp/cluster-agent/fast-aggregator.cc:74-80 | pushing an info or the generation keeps the invariant: the active buffer is the published calls and a prefix of the holder's |
| ShardProtocol.StoreKeeps | heyp/cluster-agent/fast-aggregator.cc:82-83 | storing the id back keeps the invariant: the whole call is now published |
| ShardProtocol.ClearKeeps | heyp/cluster-agent/fast-aggregator.cc:154-156 | clearing keeps the invariant: it touches only the inactive buffer |
| ShardProtocol.CollectorSwapKeeps | heyp/cluster-agent/fast-aggregator.cc:157-161 | the collector's compare-exchange keeps the invariant: it gets everything published since its last one |
| ShardProtocol.ReadNextKeeps | heyp/cluster-agent/fast-aggregator.cc:161-166 | reading keeps the invariant: what was read is what was published between two cuts |
| ShardRuns.RunKeeps | heyp/cluster-agent/fast-aggregator.cc:124-170 | the invariant holds in every state of every run of eight shards, any number of writers and one collector |
| ShardRuns.NoTwoThreadsShareABuffer | heyp/cluster-agent/fast-aggregator.cc:61-83 | in no reachable state does a writer use the buffer that the collector clears or reads, or two writers the same buffer |
| ShardRuns.PublishedIsSeenPlusActive | heyp/cluster-agent/fast-aggregator.cc:148-166 | per shard the published infos, in order, are those of the finished snapshots, those being collected and those in the active buffer: none lost, none twice |
| ShardRuns.SnapshotsHoldWholeCalls | heyp/cluster-agent/fast-aggregator.cc:42-84 | each part of a snapshot is a block of whole calls, with their generations |
| ShardRuns.SnapshotSeesEarlierCalls | heyp/cluster-agent/fast-aggregator.cc:124-170 | a call that returned before a collection began is in that snapshot or an earlier one |
| ShardProgress.WriterSteps | heyp/cluster-agent/fast-aggregator.cc:61-84 | a spinning writer gets strictly nearer to its return with every step as soon as nobody else holds the slot |
| ShardProgress.SlotIsReleased | heyp/cluster-agent/fast-aggregator.cc:61-84 | from every state of the invariant the slot can be released, whoever holds it |
| ShardProgress.EveryWriterCanReturn | heyp/cluster-agent/fast-aggregator.cc:61-84 | in every such state every call under way can still return: the two spin loops never lock each other out for good |
| ShardProgress.CollectorCanFinish | heyp/cluster-agent/fast-aggregator.cc:144-164 | and a snapshot under way can still be completed |
| Sampling.SureToReport | heyp/alg/sampler.h:76-87 | a host reports for every random draw if and only if the approval is 0 or its usage reaches approval / num_samples |
| Sampling.ReportsIff | heyp/alg/sampler.h:83-87 | for a draw rand from [0, 1) a host reports if and only if the approval is 0 or usage * num_samples > rand * approval |
| Sampling.AggUsageEstimator.RecordSample | heyp/alg/sampler.h:94-97 | one sample adds max(usage, approval / num_samples), or 0/0 for a zero usage under a positive approval |
| Sampling.ContributionIsQuotient | heyp/alg/sampler.h:76-97 | usage divided by its probability, said without the probability |
| Sampling.PositiveContribution | heyp/alg/sampler.h:76-97 | for a positive usage the weight is the larger of the usage and approval / num_samples |
| Sampling.EstimateIsNumber | heyp/alg/sampler.h:94-101 | the estimate is a number if and only if the approval is 0 or no zero usage was recorded |
| Sampling.OutcomesAreAll | heyp/alg/sampler.h:83-87 | the outcomes summed over are all ways to include or leave out each host |
| Sampling.OutcomesCount | heyp/alg/sampler.h:83-87 | there are 2^n of them |
| Sampling.WeightUndoesProbability | heyp/alg/sampler.h:76-97 | probability times weight is the usage |
| Sampling.ProbabilitiesSumToOne | heyp/alg/sampler.h:76-87 | the outcome probabilities add up to 1 |
| Sampling.EstimatorIsUnbiased | heyp/alg/sampler.h:76-101 | for every list of positive usages the expectation of the estimate over all outcomes is the total usage |
| Sampling.ExpectedCountIsBounded | heyp/alg/sampler.h:76-87 | the expected number of reports is at most num_samples * total / approval |
| Snapshots.EstimateIsPrioWeight | heyp/cluster-agent/fast-aggregator.cc:103-114 | a shard's estimate for an aggregate and priority is the sum of the weights of its infos |
| Snapshots.PrioritiesPartition | heyp/cluster-agent/fast-aggregator.cc:109-113 | every child counts towards exactly one priority |
| Snapshots.ChildrenAppend | heyp/cluster-agent/fast-aggregator.cc:185-189 | grouping shard by shard is grouping everything |
| Snapshots.ChildrenAreInfos | heyp/cluster-agent/fast-aggregator.cc:102-108 | the children of an aggregate are exactly its infos, in order, with the child id, volume and priority of each |
| Snapshots.MergeBounds | heyp/cluster-agent/fast-aggregator.cc:191-202 | truncation loses less than one unit per shard and priority |
| Snapshots.MergeIsExact | heyp/cluster-agent/fast-aggregator.cc:191-202 | with approval 0 the merged usage is the sum of the child volumes |
| Snapshots.ConvertibleIff | heyp/cluster-agent/fast-aggregator.cc:191-202 | every part has a number to truncate if and only if the approval is 0 or no volume of the aggregate is 0 |
| Snapshots.ZeroVolumeIsNotConverted | heyp/cluster-agent/fast-aggregator.cc:191-202 | one info of volume 0 under an approval of 1 has none |
| FastAggregation.FastAggregator.Aggregate | heyp/cluster-agent/fast-aggregator.cc:86-122 | the children of each aggregate are its infos of the shard, in order and field by field, every generation is with every aggregate, and both estimators of each aggregate are fed with its infos of that priority |
| FastAggregation.FastAggregator.Record | heyp/cluster-agent/fast-aggregator.cc:103-114 | one info goes to the children and to one estimator of its aggregate, and to no other |
| FastAggregation.FastAggregator.SumParts | heyp/cluster-agent/fast-aggregator.cc:191-202 | the total is HIPRI plus LOPRI in any case, and unless a part is 0/0 these are the sums of the truncated parts |
| FastAggregation.FastAggregator.MergeChildren | heyp/cluster-agent/fast-aggregator.cc:173-189 | the children of an aggregate over all shards, in shard order |
| FastAggregation.FastAggregator.CollectSnapshot | heyp/cluster-agent/fast-aggregator.cc:138-209 | the merged snapshot of every aggregate: its children are its infos of all shards, in order and field by field; children, flow, total and predicted demand in any case, HIPRI and LOPRI unless a part is 0/0 |
| FastAggregation.FastAggregator.GensAreAllIff | heyp/cluster-agent/fast-aggregator.cc:170-209 | the generations of a merged aggregate are those of the first shard, and so all of them if and only if no other shard has any |
| FastAggregation.SecondShardIsDropped | heyp/cluster-agent/fast-aggregator.cc:170-209 | a generation that the second shard alone has is missing |
| FastAggregation.FastAggregator.UsageOfChildren | heyp/cluster-agent/fast-aggregator.cc:191-208 | for positive volumes the usage is at most the sum over the children of max(volume, approval / num_samples) and less than 16 below it; with approval 0 it is exactly the sum of their volumes |
| Selection.LowerBound | heyp/cluster-agent/fast-controller.cc:171-172 | the first entry at or above a host id |
| Selection.WalkRange | heyp/cluster-agent/fast-controller.cc:170-175 | the entries of one range, in map order |
| Selection.ForEachSelected | heyp/cluster-agent/fast-controller.cc:168-182 | the callback runs for the entries of each range and then of each point, in this order |
| Selection.SelectedHolds | heyp/cluster-agent/fast-controller.cc:168-182 | a host is selected exactly when it is registered and one of the ids |
| ChildStates.MarkedIsSet | heyp/cluster-agent/fast-controller.cc:69-74 | setting one aggregate changes how that aggregate reads and no other; absent entries read as false |
| ChildStates.ChildState.SetAggIsLopri | heyp/cluster-agent/fast-controller.cc:69-74 | the entries are those that MarkedIsSet speaks of |
| ChildStates.ChildState.Heard | heyp/cluster-agent/fast-controller.cc:261-264 | the newest generation is kept and the host counts as heard |
| ChildStates.ChildState.Update | heyp/cluster-agent/fast-controller.cc:272-275 | the aggregate is set and the state is marked as not broadcast |
| ChildStates.ChildState.ForgetData | heyp/cluster-agent/fast-controller.cc:327-329 | the host no longer counts as heard |
| ChildStates.ChildState.BroadcastStateUnconditional | heyp/cluster-agent/fast-controller.cc:91-116 | whatever the reused bundle held, it ends up with limits 0 and 100 Gbps by priority for every aggregate and the generation if the host was heard, and every listener gets it |
| ChildStates.ChildState.BroadcastStateIfUpdated | heyp/cluster-agent/fast-controller.cc:118-126 | a state is sent unless it was sent already, and is then marked as sent |
| ChildStates.ChildState.AddListener | heyp/cluster-agent/fast-controller.cc:128-147 | a listener is attached, once |
| ChildStates.ChildState.RemoveListener | heyp/cluster-agent/fast-controller.cc:152-166 | and detached, and no other with it |
| ControllerRuns.ReadsDependOnOneTask | heyp/cluster-agent/fast-controller.cc:200-287 | under any interleaving an aggregate's entry depends on that aggregate's task alone |
| ControllerRuns.ListenersRun | heyp/cluster-agent/fast-controller.cc:128-166 | under any interleaving a child has the listeners that the registrations so far leave it with |
| ControllerTasks.UpdateChildren | heyp/cluster-agent/fast-controller.cc:257-285 | one aggregate's task: which callbacks it makes in which order, and its broadcast list |
| ControllerTasks.WalkShard | heyp/cluster-agent/fast-controller.cc:304-312 | the strided loop visits the indices that are shard modulo num, in order |
| ControllerTasks.ShardsVisitOnce | heyp/cluster-agent/fast-controller.cc:295-312 | together the broadcast shards visit every index of a list exactly once |
| ControllerTasks.BroadcastShard | heyp/cluster-agent/fast-controller.cc:298-314 | one broadcast task: its share of every list |
| ControllerRound.TaskLastMark | heyp/cluster-agent/fast-controller.cc:268-285 | a task leaves an entry upgraded if its host is in the upgrade set, else downgraded if it is in the downgrade set, else as it was |
| ControllerRound.TellRun | heyp/cluster-agent/fast-controller.cc:118-126 | however often a child is visited in step 3, and whoever registers in between, it is told once, about the state it has, through the listeners it has at the first visit |
| ControllerRound.FirstVisitIsFirst | heyp/cluster-agent/fast-controller.cc:298-314 | the first visit is one, and there is none before it |
| ControllerRound.RoundAppliesDiffs | heyp/cluster-agent/fast-controller.cc:268-288 | for every schedule a registered host ends a round with each aggregate's downgrades and then upgrades applied |
| ControllerRound.RoundLeavesOthers | heyp/cluster-agent/fast-controller.cc:268-288 | hosts that are not registered keep their entries |
| ControllerRound.RoundTellsOnce | heyp/cluster-agent/fast-controller.cc:294-316 | for every schedule, listeners coming and going included, a touched child is sent one bundle through the listeners it has when it is first visited, and nobody else is sent any |
| ControllerRound.RoundTellsEachListenerOnce | heyp/cluster-agent/fast-controller.cc:113-115 | listener by listener: one call to each that is attached at the first visit, none to any other |
| ControllerRound.ListedIsTouched | heyp/cluster-agent/fast-controller.cc:269-285 | a host is on a broadcast list exactly when some aggregate's diff contains it |
| ControllerRound.RoundBundleIsFinal | heyp/cluster-agent/fast-controller.cc:91-116 | that bundle shows the final state of every aggregate |
| ControllerRound.RoundGenIsNewest | heyp/cluster-agent/fast-controller.cc:257-266 | and the newest generation heard from the host, or 0 if none was heard |
| ControllerRound.RoundKeepsSizes | heyp/cluster-agent/fast-controller.cc:94-94 | the fatal size check before a broadcast cannot fail |
| ControllerRound.RoundForgetsData | heyp/cluster-agent/fast-controller.cc:318-334 | step 4 undoes what step 2.3 recorded: no host counts as heard between rounds |
| HashRings.Round | heyp/alg/downgrade/hash-ring.h:103-103 | rounding to the nearest integer, halves up |
| HashRings.ChunksAreNearest | heyp/alg/downgrade/hash-ring.h:100-106 | the arc has as many chunks of 2^32 ids as the fraction of 2^32 rounds to |
| HashRings.MatchingIsArc | heyp/alg/downgrade/hash-ring.h:161-176 | MatchingRanges is the arc of round(frac * 2^32) chunks from start_, except that it is the whole ring for a positive fraction below half a chunk at start 0 |
| HashRings.DelIsArc | heyp/alg/downgrade/hash-ring.h:145-158 | a shrinking fraction reports the first ids of the arc as deleted, or the whole ring when the difference rounds to 0 |
| HashRings.DiffWorksIffExact | heyp/alg/downgrade/hash-ring.h:79-159 | the reported diff turns the old ranges into the new ones for every id if and only if DiffIsExact holds, a condition on start_, frac_ and the new fraction |
| HashRings.TinyDecreaseDropsAll | heyp/alg/downgrade/hash-ring.h:145-158 | lowering a full ring by 2^-44 reports every id as deleted although all stay in the ring |
| HashRings.WholeChunksAreExact | heyp/alg/downgrade/hash-ring.h:97-111 | fractions that are whole numbers of chunks always give exact diffs |
| HashRings.HashRing.UpdateFrac | heyp/alg/downgrade/hash-ring.h:79-95 | clamping, the new start with its 64-bit wrap-around and the diff; the diff is right for every id if and only if DiffIsExact holds |
| HashingSelector.HashingDowngradeSelector.PickChildren | heyp/alg/downgrade/impl-hashing.cc:22-70 | the diff reaches the controller in the list its type names, as ranges of which none is empty |
| HashingSelector.HostFollowsRing | heyp/cluster-agent/fast-controller.cc:253-285 | a host whose state agrees with the selector still agrees after a round, for every schedule, if the diff was exact |
| FlowSums.TotalRemove | heyp/flows/aggregator.cc:126-156 | a sum over a map does not depend on the order in which the map is walked |
| FlowSums.SharedAggregates | heyp/flows/agg-marker.h:13-35 | two flows share an aggregate of the cluster exactly if both data centres agree, and one of their host exactly if job and host id agree as well |
| FlowSums.ClusterFlowIs | heyp/flows/agg-marker.h:13-22 | the marker of a cluster aggregate keeps the data centres and nothing else |
| FlowSums.HostFlowIs | heyp/flows/agg-marker.h:24-35 | that of a host keeps data centres, job and host id and nothing else |
| FlowSums.FoldConserves | heyp/flows/aggregator.cc:126-156 | grouping one map of flows loses nothing and counts nothing twice |
| FlowConservation.SumsConserve | heyp/flows/aggregator.cc:126-156 | the aggregates of any number of bundlers add up to what all their flows add up to |
| FlowConservation.SumsInTwoSteps | heyp/flows/aggregator.cc:245-254 | summing to a finer aggregate first gives the same coarse sums |
| FlowConservation.ConnToHostToCluster | heyp/flows/agg-marker.h:13-35 | for the flows of any number of bundlers, host sums grouped by cluster are the cluster sums, and both add up to the whole; flows share a cluster aggregate exactly if their data centres agree, and a host aggregate exactly if job and host id agree too |
| FlowAccounting.ReportKeeps | heyp/flows/aggregator.cc:87-101 | every flow that was ever reported is still there |
| FlowAccounting.ReportIsLast | heyp/flows/aggregator.cc:87-101 | and holds its latest report |
| FlowAccounting.BundleState.Absorb | heyp/flows/aggregator.cc:87-101 | reported flows become active, leave the dead map and hold the new report |
| FlowAccounting.BundleState.Stale | heyp/flows/aggregator.cc:102-107 | exactly the active flows outside the window |
| FlowAccounting.BundleState.Bury | heyp/flows/aggregator.cc:108-111 | they move to the dead map with the report they had |
| FlowAccounting.BundleState.Update | heyp/flows/aggregator.cc:83-113 | active and dead stay disjoint, their union holds the latest report of every flow ever reported, a flow is active exactly when its last report is within the window, and has the time of that report, or of its burial |
| FlowClocks.ReachesIffNotBefore | heyp/flows/aggregator.cc:190-199 | the time of an aggregate, its oldest active or else its newest dead one, is not before u exactly when no active flow is older than u and some flow is as new |
| FlowClocks.ReportReaches | heyp/flows/aggregator.cc:83-113 | a report that is not older than any time so far sets back the time of no aggregate, whichever flows it revives or buries |
| FlowTotals.AddFlow | heyp/flows/aggregator.cc:128-155 | one flow adds its bytes, and while active its usage by priority and itself, to its aggregate and to no other, and moves the oldest active or the newest dead time of that aggregate alone; usage in all and by priority stays what the children add up to |
| FlowTotals.AddBundler | heyp/flows/aggregator.cc:126-156 | one bundler adds what its active and dead flows amount to, and each aggregate has the oldest of its active and the newest of its dead times so far |
| FlowTotals.SummedConserves | heyp/flows/aggregator.cc:117-156 | sums that each aggregate has from its flows at all bundlers are together what all flows of all bundlers add up to |
| FlowTotals.BytesComeFromReports | heyp/flows/aggregator.cc:128-155 | the bytes accumulated depend on the latest reports alone, not on which flows are active |
| FlowTotals.SharesHaveCounters | heyp/flows/aggregator.cc:128-155 | a bundler's contribution carries the counters of its latest reports |
| FlowTotals.CumulativeNeverDecreases | heyp/flows/aggregator.cc:83-113 | if per-flow counters never decrease, no aggregate has fewer bytes when each bundler is looked at later, over any sequence of updates |
| AggStates.UpdateUsage | heyp/flows/state.cc:22-37 | a late update succeeds and changes nothing; any other passes the fatal checks exactly when no counter would go down, and is then what is handed out and compared with; no counter of the state ever goes down |
| AggStates.UpdateStates | heyp/flows/aggregator.cc:186-215 | every aggregate is updated once, at its time and with its sums, and handed out with the state that this leaves and its children; the loop stops exactly at a fatal check that fails |
| FlowRecords.ShownBytes | heyp/flows/aggregator.cc:200-215 | the bytes handed out for an aggregate are those of its flows if and only if the update was not late or nothing had changed |
| FlowRecords.ShownPriority | heyp/flows/state.cc:25-26 | an aggregate is handed out as LOPRI exactly if bytes were added since its last update and all of them at LOPRI; a late update leaves it as it was |
| FlowRecords.ConservedIff | heyp/flows/aggregator.cc:117-215 | all that is handed out adds up to all flows if no aggregate lags; if no sum is below its state it is never above, and equal only then |
| FlowRecords.StateIsNotAbove | heyp/flows/state.cc:36-37 | if no flow counter ever went down, what a state holds is not above what is accumulated now |
| FlowRecords.ReportInTime | heyp/flows/aggregator.cc:83-113 | a report in order leaves no time after itself, and every state at a time its aggregate still reaches |
| FlowRecords.NowIsNotLate | heyp/flows/state.cc:28-34 | an accumulation of what all bundlers hold is not late for such a state |
| FlowAggregators.FlowAggregator.GetBundlerId | heyp/threads/par-indexed-map.h:112-121 | a bundler keeps its ID, a new one gets the next |
| FlowAggregators.FlowAggregator.Update | heyp/flows/aggregator.cc:83-113 | one more report in the history, kept by the bundler it names, and everything kept that is known about the run |
| FlowAggregators.FlowAggregator.Collect | heyp/flows/aggregator.cc:121-156 | whichever reports come between the visits to two bundlers, each aggregate has the sums, children and times of its flows as of the visits |
| FlowAggregators.FlowAggregator.ForEachAgg | heyp/flows/aggregator.cc:117-215 | the callback is given for each aggregate its time, its active flows, whose usage is that of the sums, and its state, updated with the sums unless that is late; it is given all aggregates exactly if no fatal check fails, which none does while no flow counter goes down; and with reports in order and none between two visits no update is late |
| FlowAggregators.FlowAggregator.NeverLower | heyp/flows/aggregator.cc:83-215 | of any two results of one run, as the callback got them, the later one has every aggregate of the earlier one with no fewer bytes, for all times and all reports, as flows expire and revive and bundlers register |
| FlowLateness.LateReportIsDropped | heyp/flows/state.cc:28-34 | host 1 reports 100 bytes at 10, host 2 later 50 bytes at 9: the callback gets a parent with 100 bytes and both children |
| FlowStages.Bundle | heyp/host-agent/daemon.cc:195-203 | a bundle lists the parent of each aggregate that was handed out, each once |
| FlowStages.Mark | heyp/cluster-agent/full-controller.cc:80-104 | a bundle with new priorities lists the same flows with the same bytes and usage |
| FlowStages.ListNeverDecreases | heyp/flows/state.cc:36-37 | a bundle that has all flows of the one before, with no fewer bytes, lets no counter at the cluster go down |
| FlowStages.ThroughHosts | heyp/flows/aggregator.cc:245-254 | the sums of a cluster over its hosts are its sums over the connections of all hosts, for any part of the sums that adds up |
| FlowStages.StagesHaveSame | heyp/flows/agg-marker.h:13-35 | the cluster knows an aggregate exactly if some host has sent a bundle with a connection of it |
| FlowNetwork.HostStage.Collect | heyp/host-agent/daemon.cc:189-203 | a host has one bundler: with reports in the order of their times no update is late, and with flow counters that never go down as well, each aggregate handed out has the bytes of its connections |
| FlowNetwork.HostStage.Send | heyp/host-agent/daemon.cc:189-213 | one more bundle, of the connections held then; it does not fail while flow counters never go down and reports come in order |
| FlowNetwork.HostStage.SentRises | heyp/host-agent/daemon.cc:189-213 | of any two bundles of a host the later one has all flows of the earlier one, with no fewer bytes, whatever was reported |
| FlowNetwork.ClusterStage.Deliver | heyp/cluster-agent/full-controller.cc:80-104 | the bundle replaces what the cluster had of the host, all of it is active, and no counter at the cluster ever went down |
| FlowNetwork.Network.Deliver | heyp/cluster-agent/server.cc:68-69 | the same in a network whose bundles arrive in order, late or never: the cluster holds the bundle that arrived last from each host |
| FlowNetwork.Network.Show | heyp/cluster-agent/full-controller.cc:118-128 | in every state of every run: the cluster fails no fatal check, hands out exactly the aggregates, one for each pair of data centres, with a connection in a bundle that arrived, and, with steady hosts, gives each the bytes of its connections if and only if the update is not late or nothing changed; with bundles in order none is late, and all together are the bytes of all connections |
| HostReactors.HostReactor.constructor | heyp/cluster-agent/server.cc:16-24 | a new stream has two distinct empty buffers, writes nothing, and has neither a listener nor finished |
| HostReactors.HostReactor.SendAlloc | heyp/cluster-agent/server.cc:109-115 | the buffers change places and the staged one is written |
| HostReactors.HostReactor.UpdateAlloc | heyp/cluster-agent/server.cc:73-81 | an idle, unfinished stream writes the allocation at once, otherwise it is staged; the buffer in flight is not modified |
| HostReactors.HostReactor.WriteLanded | heyp/cluster-agent/server.cc:96-101 | the section under the mutex: the write is over, and a staged allocation is written next unless the stream is finished |
| HostRuns.Perform | heyp/cluster-agent/server.cc:31-115 | each step of the step system is what the reactor does: its fields become those of the next state, and it starts a write exactly where the trace has one |
| HostRuns.OneWriteInFlight | heyp/cluster-agent/server.cc:73-115 | in every trace started writes outnumber completed ones by at most one |
| HostRuns.WritesAreOrderly | heyp/cluster-agent/server.cc:31-102 | in every state of every run, with unlocked stretches as steps of their own: one write at most is in flight from a buffer that is left alone, every write carries the newest allocation, an idle, unfinished stream has written the last one, and Finish happens at most twice |
| HostRuns.NoWriteAfterFinish | heyp/cluster-agent/server.cc:31-115 | no write starts after a Finish |
| HostRuns.StepKeeps | heyp/cluster-agent/server.cc:31-102 | every step of every callback keeps the invariant |
| HostRuns.FinishedTwiceIffOverlap | heyp/cluster-agent/server.cc:86-93 | Finish is called twice if and only if a read and a write fail and each tests finished_ before the other has stored it |
| HostRuns.FinishCanHappenTwice | heyp/cluster-agent/server.cc:86-93 | a schedule in which that happens |
| HostRuns.ReadAfterFinishIffSlip | heyp/cluster-agent/server.cc:44-70 | a read starts after Finish if and only if it passed its test before a failed write stored finished_ and starts after the Finish of that write |
| HostRuns.ReadCanStartAfterFinish | heyp/cluster-agent/server.cc:57-70 | a schedule in which that happens |
| HostRuns.ListenerSurvivesIff | heyp/cluster-agent/server.cc:57-66 | after a failed write has dropped the listener, the controller can still call UpdateAlloc if and only if a registration was under way or has begun since |
| HostRuns.ListenerCanSurvive | heyp/cluster-agent/server.cc:57-66 | a schedule in which the listener is stored after it was dropped |
| DemandTraces.CumDurs | go/proc/fortio.go:137-150 | the running sums are the stage ends |
| DemandTraces.FirstIsUnderWay | go/proc/fortio.go:235-252 | with durations that are not negative the first stage that ends after t is the one under way at t |
| DemandTraces.DemandIsExact | go/proc/fortio.go:233-253 | so the swept positions give the demand of every flow group |
| DemandTraces.StillFirst | go/proc/fortio.go:240-252 | until the next stage end every position stays right |
| DemandTraces.Generator.constructor | go/proc/fortio.go:198-209 | positions at 0, first snapshot at the start, end moved by half a second |
| DemandTraces.Generator.Seek | go/proc/fortio.go:235-252 | the inner loop stops at the first stage that ends after the snapshot time |
| DemandTraces.Generator.Next | go/proc/fortio.go:221-263 | a snapshot gives the exact demand of every flow group for every time up to the next snapshot, which comes strictly later |
| DemandTraces.Drain | go/proc/fortio.go:221-263 | the snapshot times strictly increase, start at the start, and number at most one more than the distinct stage ends |
| DemandReaders.RunsAreRuns | go/proc/fortio.go:98-108 | cutting rows by RunLength gives maximal runs of equal times, and every row is in exactly one of them |
| DemandReaders.RunsAreUnique | go/proc/fortio.go:98-108 | there is one way to do that |
| DemandReaders.EmitsAreRuns | go/proc/fortio.go:46-65 | the snapshots are those of the runs whose time is not -1; an error loses the run in progress |
| DemandReaders.TraceReader.ProcessRow | go/proc/fortio.go:98-108 | a row joins the snapshot, last value wins, or ends it and is pushed back |
| DemandReaders.TraceReader.ProcessLine | go/proc/fortio.go:67-109 | a line is a header, an error or a row; nothing is lost or repeated |
| DemandReaders.TraceReader.Next | go/proc/fortio.go:46-65 | each true result is the next snapshot, a false one means that none is left and reports whether reading failed; the leftover panic is unreachable |
| DemandReaders.ReadAll | go/proc/fortio.go:46-65 | the loop over Next gives exactly the expected snapshots |
| FracControl.NeverExits | heyp/alg/qos-downgrade.cc:92-150 | with gain in [0, 1] and max_inc not negative, unless both usage and approval are 0, the fatal check is unreachable from the fast controller and the fraction stays in [0, 1] |
| FracControl.GuardIsNeeded | heyp/alg/qos-downgrade.cc:113-123 | without the guard usage >= approval it can be reached |
| FracControl.StepStaysOnItsSide | heyp/alg/qos-downgrade.cc:92-133 | one period moves towards the setpoint and not past it |
| FracControl.NeverCrosses | heyp/alg/qos-downgrade.cc:92-133 | over any number of periods the setpoint is not crossed and the error never grows |
| FracControl.Converges | heyp/alg/qos-downgrade.cc:92-133 | after n periods the error is below eps, ignored, or smaller by n * min(gain * eps, max_inc) |
| FracControl.NextFracIs | heyp/cluster-agent/fast-controller.cc:226-237 | one period: below the approval the fraction drops by 0.2 and not below 0; otherwise it moves by what Step takes off the HIPRI share of the usage, within [0, 1], up while HIPRI is above the approval and down while it is below |
| FracControl.LoopIterates | heyp/cluster-agent/fast-controller.cc:226-237 | when the HIPRI share is what the fraction leaves, the controller computes the iteration of Step and never saturates |
| FracControl.LoopConverges | heyp/cluster-agent/fast-controller.cc:226-237 | so the HIPRI share of the controller never crosses the approval and gets as near to it as Converges says |
| FracControl.ClampFracLopri | heyp/cluster-agent/per-agg-allocators/util.h:42-52 | a fraction stays, what is below 0 or not a number becomes 0, what is above 1 becomes 1 |
| FracControl.StaticKeepsApproval | heyp/cluster-agent/fast-controller.cc:238-243 | without feedback exactly the approval, or a smaller usage, stays at HIPRI, and a usage of 0 downgrades nothing |
| FracControl.AdmittedSplit | heyp/alg/qos-downgrade.cc:152-166 | of what is admitted exactly the HIPRI limit goes at HIPRI and LOPRI stays within its limit; nothing goes at LOPRI without a LOPRI limit or within the HIPRI limit |
| ControlLoop.SnapshotNeverExits | heyp/cluster-agent/fast-controller.cc:227-237 | fed with any merged snapshot of positive volumes, the controller never exits |
| JobViews.Create | heyp/alg/agg-info-views.cc:39-70 | two hosts share an index if and only if they share data centres and job; indices are in range and all used; each job carries the volume and the LOPRI mark of its hosts |
| JobViews.SelectionKeepsVolume | heyp/alg/qos-downgrade.cc:62-73 | whatever jobs are selected, their hosts carry the same volume |
| JobViews.LiftSelection | heyp/alg/qos-downgrade.cc:62-73 | the lifted selection is uniform per job and selects the same volume |
| JobViews.JobsCarryAll | heyp/alg/agg-info-views.cc:60-67 | job volumes add up to host volumes |
| HistWindows.Advance | go/proc/windowed_hist.go:77-84 | the first start past a twentieth of the window |
| HistWindows.Windows | go/proc/windowed_hist.go:41-97 | for a positive dur the windows start at 0, end at the last histogram, increase strictly at both ends, leave no gap and, but for the last, span dur, each ends at the first histogram that allows it and starts at the first one past a twentieth of dur; for sorted times this holds if and only if dur is positive or there is at most one histogram |
| HistWindows.ZeroDurationFails | go/proc/windowed_hist.go:41-97 | for two histograms and no duration the first two windows both start at the first histogram |
| HistWindows.EveryHistogramIsCovered | go/proc/windowed_hist.go:41-97 | every histogram is in some window |
| WaterLevels.LevelIsUnique | heyp/alg/fairness/max-min-fairness.cc:263-309 | there is one max-min fair level, so all solvers and options agree |
| WaterLevels.NoShareIsBetter | heyp/alg/fairness/max-min-fairness.cc:263-318 | if some demand is unmet, every way to share the capacity leaves some demand below min(level + 1, demand) |
| WaterLevels.LevelIsFair | heyp/alg/fairness/max-min-fairness.cc:263-318 | max-min fairness in whole units: a share of the capacity that gives nobody less than the level does has fewer extra units for the unmet demands than there are such demands, so one of them stays at the level |
| WaterLevels.FillPermuted | heyp/alg/fairness/max-min-fairness.cc:185-193 | reordering the demands does not change what a level costs |
| WaterLevels.DivideRest | heyp/alg/fairness/max-min-fairness.cc:231-239 | dividing what is left among the unmet demands gives the level |
| MaxMinFairness.NthElement | heyp/alg/fairness/nth-element.h:118-139 | the range is permuted so that nothing before nth is above it and nothing after it is below; neither side is in any order |
| MaxMinFairness.Partition | heyp/alg/fairness/nth-element.h:88-108 | one partition around the pivot at the end of the range |
| MaxMinFairness.SolveFullSort | heyp/alg/fairness/max-min-fairness.cc:18-47 | the full-sort solver finds the level |
| MaxMinFairness.PartialSortAllocator.Ask | heyp/alg/fairness/max-min-fairness.cc:195-203 | the ask is what it costs to raise the level to the largest demand of the lower part |
| MaxMinFairness.PartialSortStep | heyp/alg/fairness/max-min-fairness.cc:214-227 | raising the level or giving up the upper part keeps the allocator's invariants |
| MaxMinFairness.PartialSortAllocator.ComputeWaterlevel | heyp/alg/fairness/max-min-fairness.cc:162-246 | the partial-sort solver finds the level |
| MaxMinFairness.PartialSortAllocator.DivideRemainder | heyp/alg/fairness/max-min-fairness.cc:231-239 | so does its last step |
| MaxMinFairness.Filter | heyp/alg/fairness/max-min-fairness.cc:280-291 | tiny demands are set aside, the others move to the front of the buffer |
| MaxMinFairness.LevelOfAll | heyp/alg/fairness/max-min-fairness.cc:269-293 | a level for what was kept is a level for all demands |
| MaxMinFairness.SingleLinkMaxMinFairnessProblem.ComputeWaterlevel | heyp/alg/fairness/max-min-fairness.cc:263-309 | whatever the options, the result is the max-min fair level |
| MaxMinFairness.SingleLinkMaxMinFairnessProblem.SetAllocations | heyp/alg/fairness/max-min-fairness.cc:311-318 | allocations are min(level, demand) and together cost what the level costs |

## Left out

- gRPC, logging, thread pools, clocks, file, JSON and text I/O: only the steps they trigger are modelled; line parsing is a parameter of the trace reader, the random draw a parameter of the sampler, and the job-name hash a parameter of the job view.
- `AuxInfo`, `FlowInfo`, `AggInfo` and `InfoBundle` wire code: the same mechanisms again; the `Timestamp` of `InfoBundle` calls a library that is not part of this model.
- Messages of 2^63 bytes or more: Go integers cannot hold their size.
- Floating-point rounding: doubles are reals, except that the quotient 0/0 is kept apart; not-a-number times in demand traces and a control period with neither usage nor approval are not modelled.
- Overflow of 64-bit sums of volumes, bytes and demands: integers are unbounded outside the wire format and the hash ring.
- FastAggregation.FastAggregator.CollectSnapshot: the conversion of 0/0 to an integer is undefined in the source and any integer here; the lookup of flows in `UpdateInfo` is left out.
- Debug-only assertions of the hash ring and of the water-level solvers are not steps of the model.
- ControllerRound.RoundAppliesDiffs: speaks of hosts that are in `host2par_` when a round starts; a host that registers later only sees later diffs, and the creation of its child state is not a step.
- HostRuns.WritesAreOrderly: takes each access to `finished_` and `lis_` outside the mutex to be atomic; the source does not make it so. The deletion of the reactor in `OnDone` is left out.
- TsBatching.TsBatch.ReadIfNeeded: the parallel arrays of times and data are one array of entries.
- TsMerging.TsMerger.constructor: asks for readers that have not been read from and have not failed, so that their stretches are counted from the start.
- TsMerging.TsMerger.Next: leaves out the first-time fields and the debug log, which no result depends on; `HostStatsReader`, which returns no EOF, is not a reader in its sense.
- FlowAccounting.BundleState.Update: leaves out the fatal check of child flow markers.
- AggStates.UpdateUsage: the usage that is measured is a parameter, a function of the last state, the time and the sums; smoothing, usage by priority of the parent and the first update without any usage are not told apart.
- FlowAggregators.FlowAggregator.GetBundlerId: leaves out the limit of ten million IDs; a bundler that registers while ForEachAgg is under way is not visited by it and counts as registering afterwards.
- FlowNetwork.Network.Show: says nothing about usage by priority; usage is that of the connections only if both aggregators measure it exactly. Bundlers are registered before the run, and nothing arrives while the cluster is in ForEachAgg, which FlowAggregators.FlowAggregator.ForEachAgg allows.
- The smoothing and demand prediction of `AggState`, the knapsack and largest-first selectors, the full controller's per-aggregate allocators and the probing fraction: no state that the theorems above need.
- FracControl.NeverCrosses: takes the response of the traffic to be the increment itself, and FracControl.LoopConverges the HIPRI share to be what the fraction leaves of a fixed usage; how real hosts respond is outside the code.
- HistWindows.Windows: states which histograms are merged; the merge and the percentiles come from a library.
- MaxMinFairness.NthElement: takes the last element of a range as its pivot; the scratch buffer, the choice of the pivot and the sort of small ranges come from a library that is not part of this model, and so does the full sort. MaxMinFairness.SingleLinkMaxMinFairnessProblem.ComputeWaterlevel copies the kept demands to an array of their own instead of using a span of the buffer.
- `sortedLineReader`, regular-expression globbing, SSH multiplexing, deployment scripts, generated getters and the small helpers for byte order, host bundling and even distribution: no hard property.
