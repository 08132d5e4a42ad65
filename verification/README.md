# Ceilometer, modelled and proved in Dafny

Ceilometer collects samples from polled and notified services, sends them through pipelines of
transformers, publishes them, and stores them in MongoDB or HBase. This project models the parts of it
that carry state or encode data, one module per component, and proves what each is for:

- **Filters** (`MongoFilter`): the MongoDB driver rewrites a filter tree in place until every `not` sits on
  a comparison, and compiles the result. The query selects the same documents as the filter, and the
  rewriting fails on an exactly described family of trees.
- **Pipelines** (`SamplePipeline`, `Conversions`, `CounterGrowth`, `Aggregation`, `Arithmetic`): chains of
  accumulators conserve samples and their order; deltas telescope; rates never claim more than a counter grew
  exactly if its clocks are safe; partitioning by hash is transparent exactly when equal cache keys share a queue; aggregates are
  totals, means or last values; an expression waits for all its meters exactly when no two are escaped alike.
- **Publishing** (`PublisherQueue`, `GnocchiBatch`, `RotatingFile`): in every interleaving of threads each
  batch is in one place, with the races that strand a batch; a Gnocchi batch has one measure per
  sample; backups of a rotated file are the most recent epochs.
- **Storage** (`HBaseKeys`, `HBaseTable`, `MeterStatistics`, `PercentEncoding`, `MongoKeys`,
  `ResourceSummary`, `NestedDict`): reversed timestamps sort against time, composite keys and columns are read
  back, a scan returns exactly a described set of samples, versioned cells show the newest put, statistics
  are folds over periods, per-resource summaries do not depend on batching, dictionaries survive flattening.
- **Agents** (`Polling`, `InstanceDiscovery`): a cycle polls exactly what no earlier match lists and nothing has
  failed for, each resource once; the instance cache equals the server's live set.

Objects that the program updates in place are classes here; each of their methods is proved against a
function of the old state, and the properties are then proved about that function. `Sorting` and `GroupBy`
stand for Python's `sorted` and `itertools.groupby`, `Sequences` and `Text` for lists and strings, `Wrappers`
for absent values, and `Samples` for the sample that the pipeline stages share.

Numbers are exact: volumes and pipeline times are reals, storage times whole microseconds. Exceptions are
`None` or a false result. What network services answer is a parameter. `eval`, regular expressions, glob
matching and hash functions are uninterpreted functions.

Where the code falls short of what it is meant to do, the code is modelled as it is and the condition is part of the result:

- three `not`s in a row, also when De Morgan builds them, end in an IndexError (`MongoFilter.PushFailsExactly`);
- an append is lost exactly if the list its thread read had been copied by a merge or a trim by then, or was taken by a
  flush that was done with it (`PublisherQueue.EveryInterleavingAccountsForEveryBatch`); this can happen between read
  and append (`PublisherQueue.UnlockedAppendCanStrand`), and between the copying and the storing of a merge also to an
  append that is not interrupted (`PublisherQueue.AtomicAppendCanStrand`);
- meters whose names and resource ids run together share a cache entry (`Conversions.PartitionTransparentExactly`);
- with tied times rates can claim more than the growth, exactly unless only the last time is tied
  (`CounterGrowth.RatesNeverExceedGrowthByTimes`; for mixed clocks `CounterGrowth.RatesNeverExceedGrowthExactly`),
  and with any tie they can miss growth (`CounterGrowth.RatesAreExactExactly`); deltas can claim more with any tie
  (`CounterGrowth.DeltasNeverExceedGrowthExactly`);
- an aggregator that renames gauges divides by zero when it flushes (`Aggregation.FlushNeverFailsExactly`);
- of two meters escaped alike one is enough to evaluate an expression (`Arithmetic.WaitsForAllExactly`);
- a query with `ge` misses the sample at its start, because that row sorts past the stop row
  (`HBaseKeys.OnlyStartIsLost`);
- fields that look like sources, meters or metadata are read back as such (`HBaseKeys.ReadUndoesQualifier`);
- a minimum of zero counts as not set, and the maximum starts from zero (`MeterStatistics.RecordedMin`,
  `MeterStatistics.RecordedMax`);
- reducing merged values misses the latest end exactly if all values that end then begin before everything in
  front of them (`ResourceSummary.ReducedEndExactly`);
- measures of resource ids that are replaced alike are reordered unless the ids come in ascending order
  (`GnocchiBatch.MeasuresInInputOrderExactly`);
- keys that start with `%24` are read back as ones that start with `$` (`MongoKeys.RoundTrip`);
- a full refresh that fails makes later queries miss unchanged instances (`InstanceDiscovery.AnsweredQueryExactly`);
- without compression a rollover removes a log that it has just renamed (`RotatingFile.Handler.DoRollover`).

Where comments and code disagree, the code is followed: `timestamp` in `ceilometer/storage/hbase/utils.py` is
described as a count of milliseconds but counts microseconds.

## Model

| member | source | states |
|---|---|---|
| MongoFilter.PushPreservesMeaning | ceilometer/storage/mongo/utils.py:246-284 | Moving negations to the leaves leaves each `not` directly on a comparison, and every document satisfies the result exactly if it satisfies the filter |
| MongoFilter.PushFailsExactly | ceilometer/storage/mongo/utils.py:263-284 | The rewriting fails exactly if two adjacent `not`s lie below an odd number of further `not`s |
| MongoFilter.CompilePreservesMeaning | ceilometer/storage/mongo/utils.py:293-340 | A tree compiles exactly if its `not`s are on comparisons, and the query then accepts the documents that satisfy the tree, `$ne` and `$not` meaning complement |
| MongoFilter.TransformFilterCorrect | ceilometer/storage/mongo/utils.py:286-291 | For every filter: there is a query exactly unless the rewriting meets three `not`s, and it accepts exactly the documents that satisfy the filter |
| MongoFilter.ChainsOfThreeFail | ceilometer/storage/mongo/utils.py:276-282 | The smallest failing filters, one of them with the chain made by De Morgan |
| MongoFilter.Node.Negations | ceilometer/storage/mongo/utils.py:259-260 | A fresh `not` dictionary above each operand, in order, sharing nothing with each other |
| MongoFilter.Node.DeMorgan | ceilometer/storage/mongo/utils.py:253-261 | In place, a negated `and` becomes an `or` of negations and the other way round |
| MongoFilter.Node.TransformKid | ceilometer/storage/mongo/utils.py:266 | Rewriting one operand leaves its siblings as they were |
| MongoFilter.Node.TransformKids | ceilometer/storage/mongo/utils.py:265-266 | All operands are rewritten in place, up to the first one that fails |
| MongoFilter.Node.Transform | ceilometer/storage/mongo/utils.py:263-282 | The recursive rewriting of a heap tree ends, fails exactly when the rewriting of its value does, and otherwise leaves that value |
| MongoFilter.Node.ProcessTree | ceilometer/storage/mongo/utils.py:329-340 | The query of a heap tree is the compiled query of its value; the tree is not changed |
| MongoFilter.Node.HandleNot | ceilometer/storage/mongo/utils.py:302-314 | The same for a `not`: complement of a comparison, failing look-up otherwise |
| MongoFilter.Node.ProcessKids | ceilometer/storage/mongo/utils.py:293-300 | The same for the operands of `and` and `or`, in order |
| MongoFilter.Node.TransformFilterInPlace | ceilometer/storage/mongo/utils.py:286-291 | The in-place procedure gives the query of which the correctness is proved |
| MongoKeys.RestoredExactly | ceilometer/storage/mongo/utils.py:161-180 | A dot-free key is read back as written exactly if it does not start with `%24` |
| MongoKeys.ImprovedExactly | ceilometer/storage/mongo/utils.py:130-164 | A key of unreserved characters is stored as it is, and with a dollar in front as with `%24` in front |
| MongoKeys.ImprovedApart | ceilometer/storage/mongo/utils.py:161-164 | Different keys of that kind are stored under different names |
| MongoKeys.RenameKeys | ceilometer/storage/mongo/utils.py:151-180 | The loop over the entries, in any order and at all levels, puts every entry under its new name; a renamed entry replaces one that keeps its name |
| MongoKeys.RoundTrip | ceilometer/storage/mongo/utils.py:130-181 | Stored metadata has no key that starts with a dollar, and is read back as it was exactly if no key started with `%24` |
| PublisherQueue.StepKeepsAccounts | ceilometer/publisher/messaging.py:129-172 | Every step of every thread (read, append, swap, send, finish, copy of a merge or a trim, store, measure) keeps the references sound and each batch counted once |
| PublisherQueue.DeadStaysDead | ceilometer/publisher/messaging.py:129-147 | A list out of use (not being flushed, and not the local queue or copied to replace it) stays out of use, and what is in it stays there |
| PublisherQueue.StepStrands | ceilometer/publisher/messaging.py:115-139 | A step strands a batch exactly if it appends it to such a list |
| PublisherQueue.RunKeepsAccounts | ceilometer/publisher/messaging.py:102-172 | So does every run, from any sound state |
| PublisherQueue.SentInOrder | ceilometer/publisher/messaging.py:149-172 | While a thread sends from its list, in any interleaving, what it has sent is the beginning of what was in the list and of what was appended to it, in this order, and the list has the rest |
| PublisherQueue.FailureExactly | ceilometer/publisher/messaging.py:153-172 | A failed attempt: with the default policy the flush goes on below `max_retry` failures and else raises, with `queue` it merges all that is left, with `drop` nothing |
| PublisherQueue.FailuresBounded | ceilometer/publisher/messaging.py:153-172 | So, in any interleaving, a flush goes on after a failure only with the default policy, and has then failed less than `max_retry` times |
| PublisherQueue.EveryInterleavingAccountsForEveryBatch | ceilometer/publisher/messaging.py:102-172 | From an empty publisher, in every interleaving of any number of threads under any policy, every appended batch is sent, evicted, abandoned or in one list; the batches in lists out of use are exactly those appended after the list that was read was copied by a merge or a trim, or was swapped out by a thread that has finished, given up or merged since, which the schedule alone tells; policy `queue` loses others only by eviction, the other policies only by giving up |
| PublisherQueue.RunLosesByPolicy | ceilometer/publisher/messaging.py:136-168 | In every run, policy `queue` abandons nothing and only it evicts, and only with a positive bound |
| PublisherQueue.ExactlyOnePlace | ceilometer/publisher/messaging.py:129-172 | A batch appended once is in exactly one of these places, and stranded exactly if it is in a list out of use |
| PublisherQueue.AtomicAppendLateExactly | ceilometer/publisher/messaging.py:115-147 | An append that directly follows its read is lost exactly if it comes between the copying and the storing of a merge or a trim |
| PublisherQueue.LockedAppendsNeverStray | ceilometer/publisher/messaging.py:115-139 | If reading and appending happen while the lock is free, nothing is appended too late |
| PublisherQueue.UnlockedAppendCanStrand | ceilometer/publisher/messaging.py:115-132 | Two threads and four steps strand a batch, under every policy |
| PublisherQueue.AtomicAppendCanStrand | ceilometer/publisher/messaging.py:115-137 | So do six steps in which read and append are not interrupted |
| PublisherQueue.StepKeepsMeasured | ceilometer/publisher/messaging.py:141-145 | A thread that is about to slice always slices by the excess it measured |
| PublisherQueue.TrimCutsToBound | ceilometer/publisher/messaging.py:141-145 | The slice evicts a prefix and leaves the bound plus what was appended after measuring, and this is what gets stored |
| PublisherQueue.MergeKeepsNewest | ceilometer/publisher/messaging.py:136-145 | The steps of a merge and its check, undisturbed, leave unsent batches in front of newer ones and under policy `queue` keep the newest `max_queue_length` |
| PublisherQueue.Newest | ceilometer/publisher/messaging.py:141-145 | What is kept is a suffix within the bound, shorter than the queue only if it has just the bound |
| PublisherQueue.Publisher.ProcessQueue | ceilometer/publisher/messaging.py:149-172 | Batches are sent in order; the outcome under each policy in terms of how many attempts fail, with an exception exactly after `max_retry` failures |
| PublisherQueue.Publisher.Flush | ceilometer/publisher/messaging.py:129-139 | A prefix of the queue is sent; under `queue` the newest of the rest is kept, otherwise nothing; all is sent if all attempts succeed |
| PublisherQueue.Publisher.CheckQueueLength | ceilometer/publisher/messaging.py:141-147 | Keeps the newest batches within the bound |
| PublisherQueue.Publisher.Publish | ceilometer/publisher/messaging.py:102-127 | Batches leave in the order they came; under `queue`, without a bound or below it, sent and queued batches together are all that came |
| SamplePipeline.FeedConserves | ceilometer/pipeline.py:480-531 | Samples entering a stage come out, in order, behind all that the stages from there on held |
| SamplePipeline.FlushConserves | ceilometer/pipeline.py:536-547 | A flush loses, repeats and reorders nothing and leaves no stage full |
| SamplePipeline.RunConserves | ceilometer/pipeline.py:480-547 | Over any run of publishing and flushing, what publishers got followed by what the stages hold, last stage first, is exactly what was accepted |
| SamplePipeline.FeedTwice | ceilometer/pipeline.py:513-521 | Sending samples down the chain one by one is sending them together |
| SamplePipeline.Accumulator.HandleSample | ceilometer/transformer/accumulator.py:33-37 | Holds the sample, or passes it if the size is below one |
| SamplePipeline.Accumulator.Flush | ceilometer/transformer/accumulator.py:39-44 | Gives all samples once there are enough, else none; raises where there is no list |
| SamplePipeline.SampleSink.TransformSample | ceilometer/pipeline.py:480-490 | One sample goes through the transformer objects as it goes through the chain's value |
| SamplePipeline.SampleSink.PublishFrom | ceilometer/pipeline.py:499-531 | So do several, and what comes out is published |
| SamplePipeline.SampleSink.PublishSamples | ceilometer/pipeline.py:533-534 | Publishing is a step of the runs that conserve samples |
| SamplePipeline.SampleSink.FlushStage | ceilometer/pipeline.py:539-547 | One stage is emptied into the stages after it, or skipped if it is not full or raises |
| SamplePipeline.SampleSink.Flush | ceilometer/pipeline.py:536-547 | Flushing is a step of the runs that conserve samples |
| Conversions.ScaledExactly | ceilometer/transformer/conversions.py:136-145 | The scaled amount is the volume without a scale or with a zero one, the volume times a factor, or the value of an expression |
| Conversions.ConvertedExactly | ceilometer/transformer/conversions.py:147-160 | A converted sample has the scaled amount times the growth, or a bound other than zero where that is less; name, unit and type of the target, and all else of the sample |
| Conversions.DeltaExactly | ceilometer/transformer/conversions.py:73-114 | The next entry and the delta of one sample: none for the first, for a time that went back (the entry is kept) or a negative growth that is not wanted, else just the difference under the new name |
| Conversions.RateExactly | ceilometer/transformer/conversions.py:184-225 | For every target: a rate is scale times growth over elapsed time, or the bound where that is less, zero if no time passed; dropped with the entry kept if time went back; growth starts over where a cumulative meter went down; time is monotonic where both samples have it |
| Conversions.DeltaTransformer.HandleSample | ceilometer/transformer/conversions.py:73-114 | The sample is answered as `DeltaExactly` describes, from the entry under its name and resource id, and no other entry changes |
| Conversions.RateOfChangeTransformer.constructor | ceilometer/transformer/conversions.py:178-182 | A missing or zero scale is one, and all else of the target is kept |
| Conversions.RateOfChangeTransformer.HandleSample | ceilometer/transformer/conversions.py:184-225 | The sample is answered as `RateExactly` describes, from the entry under its name and resource id, and no other entry changes |
| Conversions.QueueOf | ceilometer/pipeline.py:165-173 | Every sample has one queue, within range |
| Conversions.SeparateKeysDoNotInterfere | ceilometer/transformer/conversions.py:75-100 | A selection of whole cache keys is answered alone as it is within the whole stream |
| Conversions.PartitionIsTransparent | ceilometer/pipeline.py:165-176 | If meters with equal keys share a queue, each queue's transformer answers, in order, what one transformer would answer for the queue's samples |
| Conversions.SplitKeyIsNotTransparent | ceilometer/transformer/conversions.py:75-100 | Two samples with one key and two queues lose an answer |
| Conversions.PartitionTransparentExactly | ceilometer/pipeline.py:165-176 | Partitioning is transparent for all streams of a set of meters exactly if equal keys share queues |
| Conversions.DeltaPartitionTransparentExactly | ceilometer/transformer/conversions.py:73-100 | This holds of the delta transformer |
| Conversions.RatePartitionTransparentExactly | ceilometer/transformer/conversions.py:184-225 | This holds of the rate transformer |
| Conversions.OneKeyAmongMany | ceilometer/transformer/conversions.py:75-78 | On the samples of one key the cached transformer is the transformer of a single entry |
| CounterGrowth.DeltasTelescope | ceilometer/transformer/conversions.py:73-100 | In any arrival order deltas add up to the newest volume minus the first; growth-only deltas are non-negative and add up to no less |
| CounterGrowth.DeltasNeverExceedGrowthExactly | ceilometer/transformer/conversions.py:73-100 | Deltas, growth-only or not, claim at most the growth of every true counter in every arrival order, and without a reset just that growth, exactly if timestamps increase strictly |
| CounterGrowth.GrowthBetween | ceilometer/transformer/conversions.py:208-215 | Growth is never negative, and what a counter shows bounds it from below, with equality when it was not reset |
| CounterGrowth.RateIsRight | ceilometer/transformer/conversions.py:187-219 | One report of a counter at any time: dropped with the cache unchanged if time went back, else cached and answered by a non-negative rate that claims the growth shown since the cached report, and nothing if no time passed |
| CounterGrowth.RatesFollowMoments | ceilometer/transformer/conversions.py:184-225 | For all clocks and arrival orders: what is claimed in sum, what is cached in the end, and no rate is negative |
| CounterGrowth.SafeClocksClaim | ceilometer/transformer/conversions.py:196-218 | With safe clocks, whatever ties lead back to, no more than the growth after the latest moment is claimed |
| CounterGrowth.RatesNeverExceedGrowthExactly | ceilometer/transformer/conversions.py:184-225 | Rates claim at most the growth, for every true counter with any resets at given times, every first report and arrival order, exactly if no moment seems to be before an earlier one and no ties lead back to a moment after which time still passes |
| CounterGrowth.RatesNeverExceedGrowthByTimes | ceilometer/transformer/conversions.py:196-203 | With one clock, timestamps or monotonic, this is so exactly if times do not decrease and only the last one is tied |
| CounterGrowth.RatesAreExactExactly | ceilometer/transformer/conversions.py:184-225 | Without a reset the rates account for all growth, in every arrival order, exactly if every moment is after all earlier ones |
| CounterGrowth.RatesOfStrictClocks | ceilometer/transformer/conversions.py:184-225 | For such clocks: no rate negative, latest report cached, claim at most the growth, equal to it without a reset |
| CounterGrowth.TiedReadingsOvercount | ceilometer/transformer/conversions.py:201-217 | An input: of two readings at one time the lower comes last, and their difference is claimed twice |
| Aggregation.SameKeyExactly | ceilometer/transformer/conversions.py:291-300 | With names without dashes and ids of one length, samples are merged exactly if name, resource and the attributes without a policy agree, missing ones read as `<undefined>` |
| Aggregation.StartedExactly | ceilometer/transformer/conversions.py:310-314 | The first sample of a key is scaled and bounded, with name, unit and type of the target; metadata are dropped where configured |
| Aggregation.HandleDescribes | ceilometer/transformer/conversions.py:302-324 | A further sample keeps counts, volumes and attributes those of the groups of samples by key |
| Aggregation.MergedCarries | ceilometer/transformer/conversions.py:315-324 | Merging keeps name, unit and type of the group's first sample and takes timestamp, project, user and metadata from the first or last one as configured |
| Aggregation.AggregateOfDescribes | ceilometer/transformer/conversions.py:302-324 | So they are after any samples |
| Aggregation.CountsAddUp | ceilometer/transformer/conversions.py:306-310 | The counts are those of the samples' keys, sum to `aggregated_samples`, and have the keys of `samples` |
| Aggregation.GroupVolumeIsTotalOrLast | ceilometer/transformer/conversions.py:317-320 | A held volume is the total of its group, or the last volume of a cumulative meter |
| Aggregation.GroupVolumeExactly | ceilometer/transformer/conversions.py:310-320 | The volume held for a group step by step: the first amount with the bound, then a cumulative amount in its place or any other added, without the bound |
| Aggregation.DueExactly | ceilometer/transformer/conversions.py:326-333 | A flush emits exactly if there are samples and they reach the size, or the first of them is older than the retention time |
| Aggregation.AverageableExactly | ceilometer/transformer/conversions.py:335-340 | A flush after any samples divides by zero exactly if a gauge would be emitted under whose own key no sample came |
| Aggregation.FlushedExactly | ceilometer/transformer/conversions.py:334-340 | What is emitted after any samples: one sample for each of their keys, with the attributes of its group and the held volume, divided for a gauge by the number of samples under its own key |
| Aggregation.FlushNeverFailsExactly | ceilometer/transformer/conversions.py:335-340 | No flush divides by zero, whatever comes in, exactly if converting keeps the key of every sample that becomes a gauge |
| Aggregation.FlushedVolume | ceilometer/transformer/conversions.py:334-340 | What a flush after any samples emits for a key: total or last volume of its group, divided by its size for gauges |
| Aggregation.FlushedGaugeBetween | ceilometer/transformer/conversions.py:336-340 | A gauge flushed after any samples is the mean of its group and lies within its bounds, also if the target type is set to gauge |
| Aggregation.DeltasConserved | ceilometer/transformer/conversions.py:302-346 | Over any run of arrivals and flushes, flushed plus held delta volume of a key is the total scaled volume that came in |
| Aggregation.Aggregator.constructor | ceilometer/transformer/conversions.py:253-278 | Starts empty; the size is one if neither size nor retention time is given |
| Aggregation.Aggregator.HandleSample | ceilometer/transformer/conversions.py:302-324 | In any state the sample is counted and merged; the state stays that of the samples since the last flush |
| Aggregation.Aggregator.AverageGauges | ceilometer/transformer/conversions.py:334-340 | Each gauge is divided once by the count under its key, in any order; fails exactly if a count is missing, with a zero added for it and the others divided or not |
| Aggregation.Aggregator.Flush | ceilometer/transformer/conversions.py:326-346 | In terms of the samples since the last flush: if they reach the size or the retention time has passed since the first of them, all groups are emitted as `FlushedExactly` describes and everything is cleared, unless a count is missing; else nothing is emitted or changed. A failure leaves the gauges partly divided and a zero count |
| Arithmetic.EscapedAlikeExactly | ceilometer/transformer/arithmetic.py:147-155 | Two meter names are escaped alike exactly if equal, or both wrapped and different only in dots against underscores |
| Arithmetic.EscapedIsName | ceilometer/transformer/arithmetic.py:147-155 | An escaped name has no dot and is no keyword; it is the name itself exactly if that has no dot, is no keyword and does not end in `ESC` |
| Arithmetic.EscapedName | ceilometer/transformer/arithmetic.py:147-155 | Inputs: `cpu.util` becomes `_cpu_util_ESC`, and `is` becomes `_is_ESC` |
| Arithmetic.CacheIsOfSamplesSince | ceilometer/transformer/arithmetic.py:61-115 | Over any run of samples and flushes, what is cached of a resource comes from the samples since it was last calculated |
| Arithmetic.CacheHasLatest | ceilometer/transformer/arithmetic.py:61-66 | Over any run, the cache has per resource and escaped name the latest of these samples that fills the place |
| Arithmetic.LatestForIsLatest | ceilometer/transformer/arithmetic.py:61-66 | The latest sample of a place fills it, and none after it does |
| Arithmetic.CompleteExactly | ceilometer/transformer/arithmetic.py:68-70 | Over any run, the comparison of sizes tells exactly whether every escaped name has had a sample since |
| Arithmetic.WaitsForAllExactly | ceilometer/transformer/arithmetic.py:68-113 | In every run of samples and flushes the transformer waits for all meters of its expression, again after each calculation, exactly if no two are escaped alike |
| Arithmetic.DotsAgainstUnderscores | ceilometer/transformer/arithmetic.py:147-155 | An input: `a.b_c` and `a_b.c` are escaped alike, and an expression over both does not wait for both |
| Arithmetic.NewSample | ceilometer/transformer/arithmetic.py:72-97 | What is calculated for a resource that has all it needs: a sample exactly if the expression has a value on the latest samples since it was last calculated; it belongs to the resource, has the timestamp of the sample that came last, and takes owner, metadata and what the target leaves open from the latest reference sample |
| Arithmetic.Transformer.HandleSample | ceilometer/transformer/arithmetic.py:99-101 | Cache and latest timestamp stay those of the events so far |
| Arithmetic.Transformer.CalculateComplete | ceilometer/transformer/arithmetic.py:109-114 | Calculates, as described above, for exactly the resources of which every meter has come since they were last calculated, and forgets exactly these |
| Arithmetic.Transformer.Flush | ceilometer/transformer/arithmetic.py:103-115 | In terms of all events so far: a resource is in the result exactly if there are meters and each has had a sample for it since it was last calculated, with the sample that `NewSample` describes or none where the expression fails |
| PercentEncoding.UnquoteUndoesQuote | ceilometer/storage/hbase/utils.py:432-448 | Unquoting undoes quoting, for all byte strings and all safe characters but the percent sign |
| PercentEncoding.QuotedCharacters | ceilometer/storage/hbase/utils.py:432-439 | Quoted text has only letters, digits, `_`, `.`, `-`, the safe character and percent signs |
| PercentEncoding.QuoteHidesColons | ceilometer/storage/hbase/utils.py:432-439 | A quoted string has no colon |
| HBaseKeys.ReversedExactly | ceilometer/storage/hbase/utils.py:53-56 | A reversed timestamp is 9223372036854775807 less the microseconds since the epoch |
| HBaseKeys.TimestampOrder | ceilometer/storage/hbase/utils.py:53-56 | Microsecond counts order and identify the times of the years 1 to 9999 |
| HBaseKeys.RtsHas19Digits | ceilometer/storage/hbase/utils.py:53-56 | Every reversed timestamp of these years has 19 digits |
| HBaseKeys.RtsReversesOrder | ceilometer/storage/hbase/utils.py:39-56 | String order of reversed timestamps is the reverse of time order |
| HBaseKeys.SplitUndoesPrepareKey | ceilometer/storage/hbase/utils.py:280-291 | Splitting at colons and unquoting gives back the parts of every key |
| HBaseKeys.ReversedFilter | ceilometer/storage/hbase/utils.py:28-32 | The reversed operator on stored strings is the operator on times, for all six operators |
| HBaseKeys.RowBoundsOwnMeter | ceilometer/storage/hbase/utils.py:261-277 | Of the queried meter the bounds keep the times after the start and up to the end |
| HBaseKeys.RowBoundsOtherMeter | ceilometer/storage/hbase/utils.py:261-277 | All rows of other meters lie outside the bounds, whatever the names |
| HBaseKeys.QueryReturnsExactly | ceilometer/storage/hbase/utils.py:59-93 | A scan with row bounds and filters returns exactly the samples of the meter that satisfy both operators and lie after the start and not after the end |
| HBaseKeys.OnlyStartIsLost | ceilometer/storage/hbase/utils.py:261-277 | For start and end operators of their kind, exactly a wanted sample at the start time is lost |
| HBaseKeys.ReadUndoesQualifier | ceilometer/storage/hbase/utils.py:304-379 | Sources, meters, metadata and fields are read back as what they were, except exactly fields with a reserved prefix |
| HBaseKeys.QualifiersApart | ceilometer/storage/hbase/utils.py:344-379 | Items that are not such fields go to different columns unless they are the same |
| HBaseKeys.SerializeEntry | ceilometer/storage/hbase/utils.py:344-379 | In any order of items, the entry has a column for each and no other |
| HBaseKeys.DeserializeEntry | ceilometer/storage/hbase/utils.py:304-341 | In any order of columns, everything read comes from a column and every column is read |
| HBaseKeys.EntryRoundTrip | ceilometer/storage/hbase/utils.py:304-379 | A whole entry is read back as it was written: the same items with the same contents, and nothing else |
| HBaseTable.VersionHasLast | ceilometer/storage/hbase/inmemory.py:50-62 | A version, also that of missing timestamps, has per column what was last put there |
| HBaseTable.ShownValueIsDecisive | ceilometer/storage/hbase/inmemory.py:50-77 | What is shown of a row is exactly the columns put there, each with the value of the put with the greatest time, the later of equal ones, any put without a time coming after all that have one |
| HBaseTable.GreaterTimeIsShown | ceilometer/storage/hbase/inmemory.py:72-77 | Of two puts of a column the one with the greater time is shown, the second if the times are equal |
| HBaseTable.OrderOfPutsIrrelevant | ceilometer/storage/hbase/inmemory.py:50-77 | With distinct timestamps every permutation of puts shows the same |
| HBaseTable.Table.DoPut | ceilometer/storage/hbase/inmemory.py:50-62 | The rows are those of all puts so far |
| HBaseTable.Table.Smallest | ceilometer/storage/hbase/inmemory.py:75 | The versions are taken in ascending order of their times, those without a time last |
| HBaseTable.Table.GetLatestDict | ceilometer/storage/hbase/inmemory.py:67-77 | Updating oldest first gives every column the value of the put that decides it, by time and then by order |
| HBaseTable.Table.Matching | ceilometer/storage/hbase/inmemory.py:79-117 | Exactly the rows in which something was put, within the bounds, that have a wanted column and pass all filters, each with the values of the deciding puts |
| HBaseTable.Table.FirstRows | ceilometer/storage/hbase/inmemory.py:118-119 | The rows in ascending order of keys, up to the limit |
| HBaseTable.Table.Scan | ceilometer/storage/hbase/inmemory.py:79-119 | In terms of the puts so far: these rows in ascending order of keys, each once, and all of them unless the limit is reached by earlier ones |
| MeterStatistics.Statistics.Update | ceilometer/storage/impl_hbase.py:333-354 | The new record is that of one more sample |
| MeterStatistics.RecordAddsUp | ceilometer/storage/impl_hbase.py:343-354 | Count, sum, average, duration bounds and duration of a record are those of its samples, for all volumes |
| MeterStatistics.RecordedMax | ceilometer/storage/impl_hbase.py:347 | The recorded maximum is the true one, or zero if that is greater |
| MeterStatistics.RecordedMin | ceilometer/storage/impl_hbase.py:346 | The recorded minimum is the true one exactly unless that is zero and the last volume is not |
| MeterStatistics.GroupsArePeriods | ceilometer/storage/impl_hbase.py:413-423 | One group per non-empty period, increasing, each sample within its period, and all samples in order |
| MeterStatistics.RecordSumsUp | ceilometer/storage/impl_hbase.py:333-354 | All of the above for one record |
| MeterStatistics.TruncatedTowardsZero | ceilometer/storage/impl_hbase.py:416-418 | The number of periods between two times is rounded towards zero |
| MeterStatistics.StatisticsArePeriods | ceilometer/storage/impl_hbase.py:413-440 | For time-ordered samples from the start on: one record for every non-empty period, increasing, each with its period's bounds and summing up exactly the samples in them; every sample counts once |
| MeterStatistics.StatisticsOfAll | ceilometer/storage/impl_hbase.py:406-440 | Without a period one record from start to end sums up all samples |
| MeterStatistics.ExpectedStep | ceilometer/storage/impl_hbase.py:413-439 | Deciding by the last record's start is deciding by period |
| MeterStatistics.RecordOne | ceilometer/storage/impl_hbase.py:413-439 | One turn of the loop updates the last record or a new one |
| MeterStatistics.GetMeterStatistics | ceilometer/storage/impl_hbase.py:390-440 | The result has one record for every group of samples of a period, oldest first, made from the newest-first scan; periods are counted from the start of the query or else the oldest sample, to its end or else the newest |
| ResourceSummary.AfterGroupSummarizes | ceilometer/storage/impl_mongodb.py:284-330 | Updating a correct summary with a time-ordered group gives the summary of all samples, also out of order |
| ResourceSummary.LaterOrEqualWins | ceilometer/storage/impl_mongodb.py:303-317 | The metadata and the end of a resource are those of the last sample of the group, also on a tie, unless it has a later one |
| ResourceSummary.GroupsAreGood | ceilometer/storage/impl_mongodb.py:269-276 | Sorting and grouping a batch gives groups of one resource in time order that have all the samples |
| ResourceSummary.BatchesSummarized | ceilometer/storage/impl_mongodb.py:253-330 | After any batches each resource has its first and last timestamps, the metadata of a latest sample, and all its meters |
| ResourceSummary.BatchingIrrelevant | ceilometer/storage/impl_mongodb.py:253-330 | Two ways of batching the same samples give the same summary (metadata where samples of one time agree on it) |
| ResourceSummary.OwnerIsOfLastBatch | ceilometer/storage/impl_mongodb.py:269-292 | Project, user and source are those of a latest sample in the last batch that has any of the resource, even if that batch came out of order |
| ResourceSummary.ReducedBegins | ceilometer/storage/impl_mongodb.py:114-127 | Reducing any values, also merged ones, gives the earliest beginning and the owner of a value that begins then |
| ResourceSummary.ReducedEnds | ceilometer/storage/impl_mongodb.py:122-132 | It gives the end and metadata of the latest value among those that do not begin before everything in front of them |
| ResourceSummary.ReducedEndExactly | ceilometer/storage/impl_mongodb.py:122-132 | The end is the true one exactly if some value that ends last is among these |
| ResourceSummary.EndMissed | ceilometer/storage/impl_mongodb.py:122-132 | An input: a value over (5, 6) followed by one over (1, 10) reduces to (1, 6) |
| ResourceSummary.ReducedSamples | ceilometer/storage/impl_mongodb.py:103-134 | Reducing mapped samples gives their first and last timestamps, the owner of an earliest and the metadata of a latest one |
| ResourceSummary.ResourceCollection.RecordBatch | ceilometer/storage/impl_mongodb.py:269-330 | The collection after a batch is that of its groups, one after the other |
| ResourceSummary.ResourceCollection.UpdateResource | ceilometer/storage/impl_mongodb.py:284-330 | The upsert and the two conditional updates change just that resource's document |
| Sorting.SortedIsStable | ceilometer/storage/impl_mongodb.py:269-271 | Sorting keeps the order of what the key does not tell apart |
| Sorting.SelectionKeepsOrderExactly | ceilometer/publisher/gnocchi.py:334 | Sorting keeps the order of selected elements exactly if they are ascending already |
| GroupBy.RunsPartition | ceilometer/storage/impl_mongodb.py:272-273 | The groups are the list again, a group has one key, and the next group has another |
| NestedDict.RecursiveKeypairs | ceilometer/utils.py:89-98 | The pairs are exactly the leaves under their joined paths, in the order of these paths |
| NestedDict.KeypairsBelow | ceilometer/utils.py:92-98 | The same for one name |
| NestedDict.MovedKeepsLeaf | ceilometer/utils.py:106-110 | Moving one flat entry into its nested place neither adds nor loses a leaf |
| NestedDict.RestoreKey | ceilometer/utils.py:105-110 | The body of the loop keeps all leaves and removes one flat key |
| NestedDict.RestoreNesting | ceilometer/utils.py:101-111 | In any order of items the result has no separators, exactly the leaves of an unambiguous input, and no empty dictionaries unless there were some |
| NestedDict.FlatLeaves | ceilometer/utils.py:89-98 | The flat dictionary of a clean one has exactly its leaves |
| NestedDict.RoundTrip | ceilometer/utils.py:89-111 | Unflattening the flattened dictionary gives it back exactly if no name has the separator and no inner dictionary is empty |
| InstanceDiscovery.DiscoverKeeps | ceilometer/compute/discovery.py:238-280 | Every query keeps the cache right up to changes since the last run, and an answered one makes it the live instances from the floor on |
| InstanceDiscovery.RunUpToChanges | ceilometer/compute/discovery.py:238-280 | So does every run of server changes and queries, failed ones included |
| InstanceDiscovery.AsksExactly | ceilometer/compute/discovery.py:238-266 | In any run, a query asks Nova exactly if it has not answered yet or its last answer is old enough, and for everything exactly if it has not answered yet or was last asked so long enough ago |
| InstanceDiscovery.AnsweredQueryExactly | ceilometer/compute/discovery.py:253-280 | After an answered query the cache is the server's live set exactly if no live instance is unchanged since before the floor a failed full refresh left |
| InstanceDiscovery.CacheEqualsLiveSet | ceilometer/compute/discovery.py:238-280 | While Nova answers, every query that asks it leaves the cache equal to the live set |
| InstanceDiscovery.FailedRefreshLosesInstances | ceilometer/compute/discovery.py:260-271 | One failed full refresh makes the next answered query miss a live instance |
| InstanceDiscovery.Discovery.DiscoverNovaPolling | ceilometer/compute/discovery.py:238-280 | New cache, times and returned instances of one query |
| InstanceDiscovery.Discovery.Update | ceilometer/compute/discovery.py:273-278 | Deleted and failed instances leave the cache, others replace what was known, in any order |
| Polling.PolledExactly | ceilometer/agent/manager.py:149-220 | In every cycle a pollster is given exactly its candidates, each once, that no earlier match of its name lists and for which it has not failed permanently before under that source |
| Polling.BlacklistedExactly | ceilometer/agent/manager.py:213-220 | Over any cycles, a resource is on the blacklist of a source and a pollster exactly if that pollster has failed permanently for it there in an earlier turn |
| Polling.NeverPolledTwice | ceilometer/agent/manager.py:166-174 | In a cycle no resource is given to pollsters of one name twice |
| Polling.PolledByFirstOrNone | ceilometer/agent/manager.py:166-220 | It is given to the first match that lists it exactly unless that has failed for it before, and to no other |
| Polling.FailedIsNeverPolledAgain | ceilometer/agent/manager.py:166-220 | After a permanent failure a resource is never given to that pollster of that source again, in this or any later cycle |
| Polling.PollingTask.PollAndNotify | ceilometer/agent/manager.py:149-225 | A cycle polls for each match exactly the candidates that no earlier match of its name lists and for which it has not failed in the cycles so far; the blacklists stay those of all cycles |
| Polling.PollingTask.Choose | ceilometer/agent/manager.py:166-174 | The loop over candidates extends the history by all new ones and polls those that are not blacklisted |
| GnocchiBatch.BatchHolds | ceilometer/publisher/gnocchi.py:344-374 | A resource is in both maps exactly if a handled sample goes to it, with type and owner of the first and the attributes of all these samples in order |
| GnocchiBatch.BatchHoldsMetric | ceilometer/publisher/gnocchi.py:365-374 | A metric's measures are those of its samples in order, with the archive policy and the first unit |
| GnocchiBatch.ExtraExactly | ceilometer/publisher/gnocchi.py:363-364 | An attribute of a resource has the value of the last of its samples that gives it |
| GnocchiBatch.SamplesInInputOrder | ceilometer/publisher/gnocchi.py:333-336 | Sorting by resource keeps the input order of the samples of each resource, for all lists |
| GnocchiBatch.MeasuresInInputOrderExactly | ceilometer/publisher/gnocchi.py:333-342 | All samples of a metric keep their order exactly if the resource ids that are replaced alike come in ascending order |
| GnocchiBatch.MeasuresInInputOrder | ceilometer/publisher/gnocchi.py:333-342 | A case of this: they do if no other resource id is replaced alike |
| GnocchiBatch.PostedInInputOrderExactly | ceilometer/publisher/gnocchi.py:333-374 | The measures posted for a metric are those of its samples sorted by id; in input order if the ids came ascending, and only then where measures tell samples apart |
| GnocchiBatch.SlashesFirst | ceilometer/publisher/gnocchi.py:333-342 | An input: samples of `a_b` and then `a/b` are reordered |
| GnocchiBatch.EachSampleOneMeasure | ceilometer/publisher/gnocchi.py:329-374 | Each handled sample gives one measure under its slash-replaced resource and metric, and both maps have the same keys |
| GnocchiBatch.Publisher.Group | ceilometer/publisher/gnocchi.py:329-374 | The batch is that of the sorted samples that are not Gnocchi's own, and unknown names are remembered |
| GnocchiBatch.Publisher.GroupSorted | ceilometer/publisher/gnocchi.py:340-374 | Going group by group is going sample by sample |
| GnocchiBatch.Publisher.GroupOne | ceilometer/publisher/gnocchi.py:344-374 | The same within one group |
| GnocchiBatch.Publisher.CreateResource | ceilometer/publisher/gnocchi.py:419-436 | One attempt: a failure drops the resource from both maps, a success is remembered if there are attributes and a cache |
| GnocchiBatch.RememberedExactly | ceilometer/publisher/gnocchi.py:433-436 | The cache gets the hash of a resource that was just created with attributes, and is else as it was |
| GnocchiBatch.Publisher.CreateMissing | ceilometer/publisher/gnocchi.py:418-436 | In any order, exactly the failed resources are dropped and exactly the created ones remembered |
| GnocchiBatch.Publisher.BatchMeasures | ceilometer/publisher/gnocchi.py:406-441 | Before the retry, whose failure is passed on, a resource is left in both maps, as it was, exactly unless Gnocchi missed it and it could not be created |
| RotatingFile.Handler.ShiftBackups | ceilometer/publisher/csvfile.py:145-155 | The countdown moves each backup one slot further |
| RotatingFile.Handler.DoRollover | ceilometer/publisher/csvfile.py:135-175 | The log becomes the first backup and starts empty; fails exactly without compression and with backups |
| RotatingFile.BackupsAreRecentEpochs | ceilometer/publisher/csvfile.py:144-175 | After any rollovers the i-th backup is the i-th most recent epoch, for as many as are kept, and nothing else is there |
| RotatingFile.RollEpochs | ceilometer/publisher/csvfile.py:135-175 | So they are after writing and rolling over any epochs with a handler that compresses |

## Left out

- Network clients, message transports and databases: their answers are parameters; what they do inside is not modelled.
- The SQLAlchemy driver: its work is SQL text and an object-relational mapper.
- `LockedDefaultDict`, HMAC signatures, configuration, plugin loading and the pollsters that only build samples.
- Floating-point rounding: volumes and times are exact.
- `Source.is_supported`, `get_pipeline_grouping_key`, `setup_polling_tasks`, `update_nested`, `dict_to_keyval` and
  `_make_period_dict`: only easy members would be added.
- MongoFilter.TransformFilterCorrect: operators compare by an abstract relation of the document, so array fields and
  missing fields have no special meaning; the shapes of the dictionaries (one key each) are assumed as the API builds them.
- MongoKeys.RoundTrip: keys without dots only, since dotted keys sharing a prefix overwrite each other; keys are their
  UTF-8 bytes, loops run over a snapshot of the entries as in Python 2, and dictionaries are values, so sharing between them is not captured.
- PublisherQueue.StepKeepsAccounts: the two halves of the locked swap are one step, because an append between them goes to
  the list that is then flushed, as if it came before; lists that are copied or dropped are emptied, so that a batch counts
  once; per-meter topics are just further batches.
- PublisherQueue.AtomicAppendLateExactly: that an append which is not interrupted is never lost is not promised, because the code's
  unlocked append can fall between the two halves of a merge.
- PublisherQueue.Publisher.Publish: one thread on its own; several threads are the subject of the state machine.
- SamplePipeline.RunConserves: chains of accumulators; transformers that convert or drop samples conserve none.
- Conversions.PartitionTransparentExactly: routing by resource id, the only grouping key of these transformers.
- CounterGrowth.RatesNeverExceedGrowthExactly: no `max` and the default scale, as both change the claimed amount.
- Aggregation.SameKeyExactly: parts joined by dashes can run together where names have dashes or ids have different lengths.
- Aggregation.DeltasConserved: no `max`, which cuts the first volume of a group, and conversions that keep gauges' keys.
- Arithmetic.NewSample: the value of the expression is an uninterpreted function of the cached samples.
- Arithmetic.EscapedAlikeExactly: the keywords are those of Python 2.7.
- HBaseKeys.QueryReturnsExactly: queries by meter and time; other filters are conjunctions of further conditions.
- HBaseTable.Table.Scan: filters are predicates on the columns of a row; the parsing of filter strings and the other filters of
  the table (by prefixes and by row) are not modelled.
- HBaseTable.Table.DoPut: versions with and without timestamps are ordered as in Python 2 (in Python 3 sorting a mixture
  raises TypeError), and puts do not share dictionaries with their callers.
- ResourceSummary.BatchesSummarized: one writer, starting from an empty collection; documents without timestamps are covered by
  the update itself but have no summary to be right about. Quoting of metadata keys is modelled apart.
- NestedDict.RecursiveKeypairs: lists are scalars.
- NestedDict.RestoreNesting: keys with the separator lead to scalars, as in every flattened dictionary; a dictionary under such a key
  (as in `{"a:b": {"c": 1}, "a:b:d": 2}`) replaces or is merged with what other keys put there, depending on the order of items.
- NestedDict.RestoreKey: the same.
- InstanceDiscovery.CacheEqualsLiveSet: change times are exact, and instances do not move to other hosts.
- Polling.PolledExactly: candidates are given; discovery and the hash rings that choose them are not modelled.
- GnocchiBatch.Publisher.BatchMeasures: attributes overriding the identity of a resource that is created, and the patching of
  resources after the batch.
- RotatingFile.BackupsAreRecentEpochs: compression keeps the content, and the file system is a map.
