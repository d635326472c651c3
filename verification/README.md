# Verified model of the hypertrace collector's stateful components

Three components of the hypertrace OpenTelemetry collector are modelled, together with the proofs of what they promise.

**Prometheus exporter** (`exporter/prometheusexporter`). The last-value accumulator is a map from a series signature to one
stored point. Each arriving point is stored, merged into the stored one, dropped, or deletes its series; a scrape expires
old entries. `Accumulation.dfy` gives the meaning of one arrival (`SeriesStep`, `Apply`) and of a run (`Fold`), and
`Batches.dfy` what a batch of metrics brings: which series each point belongs to and what a batch of new series leaves.
`Accumulator.dfy` is the imperative accumulator: a class with the mutable map, whose methods loop over scopes, metrics and
points and are proved to compute `Fold`. Run-level theorems about `Fold` follow in `SeriesIndependence`, `LastWriterWins`,
`DeltaSums`, `DeltaHistograms` and `Reachability`. `Interleaving` treats concurrent calls as a state machine over their
atomic loads, stores, deletes and visits; `Concurrency` proves what holds of its values under every schedule, and `Races`
says exactly when two overlapping calls end as if run in turn; `Serializability` shows that undisturbed calls always do.
`Signature` models the series key. `BucketExport` and `BucketLaws` model the conversion of a stored histogram to Prometheus
buckets, and `Collector` the label lists and `target_info` metrics.

**Kafka exporter** (`exporter/kafkaexporter/jaeger_marshaler_curer.go`). `Curer.dfy` and `Marshaler.dfy` model the in-place
repair of oversize spans; `CurerLaws.dfy` proves its closed forms and Marshal's accounting.

**metricresourceattrstoattrs processor**. `Relabelling.dfy` gives the meaning of copying resource attributes to one data
point, `ProcessorLaws.dfy` its laws, `Processor.dfy` the in-place loops over metrics and points, and `LabelUniqueness.dfy` composes it with the exporter's label list.

## Modelling conventions

- A `string` is a sequence of bytes, one `char` per byte.
- Histogram counts are `uint64` with wrap-around (`Add64`), integer sums are `int64` with wrap-around (`AddI64`); theorems
  that need the absence of overflow say so exactly. Doubles and bucket bounds are reals.
- Timestamps and wall-clock times are natural numbers; the clock is a parameter.
- `marshal`, label normalisation and the already translated Jaeger batches are parameters.
- A Go attribute map is the ordered key-value list that pdata keeps. `UniqueKeys` is its documented invariant;
  removing a key moves the last pair into its place.
- The four accumulateX functions share one loop shape; the model has that loop once (`AccumulatePoints`) and one method per
  type for the loop body.
- `RunSafe` is exactly what the code demands of its callers: no merge reads a bucket the older point does not have.
  `Reachability.HonestRunSafe` proves it for every input with one bucket more than bounds.

## Where code and documentation differ, or a promise fails

- The curer's comments say that logs are thinned when there are more than 2^5 of them; the code does so from 32 on. The model
  follows the code.
- Redelivering the last point of a delta *sum* chain replaces the total by that point (`DeltaSums.RedeliveryResetsSum`);
  `DeltaSums.RedeliveryHarmless` says exactly which single redelivery after a chain is harmless, and
  `DeltaSums.AtLeastOnceSum` exactly when a run with any redeliveries still stores the whole total. Delta histograms have no
  such gap.
- A delta histogram whose bounds change keeps its start but forgets the earlier counts; `DeltaHistograms.BoundsChangeLoses`
  says exactly when the stored count is still the sum over the stored interval.
- The processor exists to avoid duplicate label names, but some inputs still produce them (`LabelUniqueness.ClashExample`);
  `LabelUniqueness.DuplicateLabelsExactly` gives the exact condition, for any normalisation and any attributes.
- Processing is independent of resource attribute order except in one case, characterised by
  `ProcessorLaws.OrderMattersExactly`.
- Different series can share a signature, if a point attribute is keyed "job" or "instance"
  (`Signature.JobAttributeCollides`). Among '*'-free series that share one, exactly those pairs are different whose resources
  differ in having a service name or in having an instance id (`Signature.SignatureInjective`).
- Targets are told apart by a string. It confuses two of them exactly when one is the other with the separator byte between
  job and instance shifted over some text (`Collector.ShareStringExactly`, `Collector.DeduplicationExact`).
- Exported buckets are cumulative exactly when the true number of observations up to the largest bound neither overflows 64
  bits nor exceeds the count (`BucketLaws.CumulativeExactly`). For conserved histograms with distinct bounds that is when the
  true total fits 64 bits (`BucketLaws.CumulativeIffNoOverflow`); with repeated bounds it is not
  (`BucketLaws.RepeatedBoundExample`).
- A no-recorded-value point hides the rest of its metric; `SeriesIndependence.AllPointsArrive` says exactly when nothing is
  hidden.
- Concurrent Accumulate calls on one series can lose an update (`Races.LostIncrement`). `Races.LatestRace`, `Races.SumRace`
  and `Races.HistogramRace` say exactly when two overlapping calls end as neither order of them would.
- A deletion can be undone: a point loaded before a marker or a scrape ended its series and stored after it brings the ended
  total back (`Races.EndedTotalReturns`). `Races.MarkerRace` and `Races.ScrapeInsideCall` say exactly when.
- A scrape can delete an entry that has not expired; `Races.FreshDeleted` and `Races.ScrapeAroundCall` say exactly when.
- What never happens under concurrency: a value that no sequence of delivered points explains, or a point counted more often
  than it was delivered (`Concurrency.OnlyLosses`). Calls that no store or delete of their series interrupts leave
  what they leave one after the other (`Serializability.Serializable`).

## Model

| member | source | states |
|---|---|---|
| Accumulator.LastValueAccumulator.Accumulate | exporter/prometheusexporter/accumulator.go:61-76 | a batch turns the map into the fold of its arrivals in scope and metric order, returns the number of stored points, and rewrites the input points of each metric as that run dictates; in a marker-free batch every point alone in a series not stored before is stored as it came, with its metric's name, description, unit and kind (as cumulative), resource, scope and the time of the batch |
| Batches.WorkAt | exporter/prometheusexporter/accumulator.go:62-71 | metric j of scope i is accumulated at its place, with its own kind and metadata, its scope, the resource and the time of the batch |
| Metrics.FlattenAt | exporter/prometheusexporter/accumulator.go:66-72 | metrics are visited scope by scope, each scope in order |
| Batches.PointSeries | exporter/prometheusexporter/accumulator.go:105-180 | two points belong to one series exactly if metric type, scope, name, rendered attributes, job and instance agree, for '*'-free parts without "job" and "instance" attributes |
| Batches.NewSeries | exporter/prometheusexporter/accumulator.go:186-196 | the first point of a series is stored as it came, with its metric's metadata |
| Batches.FirstMarkerEnds | exporter/prometheusexporter/accumulator.go:181-184 | the first marker of a metric deletes its series, and the points behind it are not visited |
| Batches.ProcessedIsStamped | exporter/prometheusexporter/accumulator.go:61-76 | with one point per series and no markers, the number reported is the number of entries that carry the time of the batch afterwards |
| Batches.InputKept | exporter/prometheusexporter/accumulator.go:203-218 | only points of monotonic delta sums are ever rewritten, and of those only start and value |
| Accumulator.LastValueAccumulator.AddMetric | exporter/prometheusexporter/accumulator.go:78-98 | dispatch by type; empty and exponential-histogram metrics, sums of unspecified temporality and non-monotonic delta sums change nothing and report zero |
| Accumulator.LastValueAccumulator.AccumulatePoints | exporter/prometheusexporter/accumulator.go:176-221 | the per-metric loop computes the fold up to and including the first marker; after a marker it reports zero and leaves later points unvisited |
| Accumulator.LastValueAccumulator.AccumulateSummaryPoint | exporter/prometheusexporter/accumulator.go:111-123 | the new map after one summary point, and whether it was stored |
| Accumulator.LastValueAccumulator.AccumulateGaugePoint | exporter/prometheusexporter/accumulator.go:140-158 | the new map after one gauge point, and whether it was stored |
| Accumulator.LastValueAccumulator.AccumulateSumPoint | exporter/prometheusexporter/accumulator.go:186-219 | the new map after one sum point, whether it was stored, and the rewritten input point |
| Accumulator.LastValueAccumulator.AccumulateHistogramPoint | exporter/prometheusexporter/accumulator.go:238-289 | the new map after one histogram point: merged, reset or dropped |
| Accumulator.LastValueAccumulator.Collect | exporter/prometheusexporter/accumulator.go:295-316 | exactly the entries updated at most the expiration before now are returned, once each, as two aligned lists, and exactly the others are removed |
| HistogramMerge.AccumulateHistogramValues | exporter/prometheusexporter/accumulator.go:348-385 | the in-place merge keeps the earlier start and the later end and attributes; counts, sum and buckets add up on equal bounds, otherwise the value of the later point stands |
| HistogramMerge.MergeConserves | exporter/prometheusexporter/accumulator.go:348-385 | merging keeps one bucket more than bounds and the count equal to the sum of the buckets, with equal or different bounds and either age order |
| SeriesIndependence.SeriesIndependent | exporter/prometheusexporter/accumulator.go:61-76 | after any run the entry of a series is the result of running only that series' arrivals |
| SeriesIndependence.InterleavingIrrelevant | exporter/prometheusexporter/accumulator.go:61-76 | runs with equal per-series projections end in the same map |
| SeriesIndependence.StepsCommute | exporter/prometheusexporter/accumulator.go:100-292 | steps on different signatures commute |
| SeriesIndependence.Rebatching | exporter/prometheusexporter/accumulator.go:61-76 | splitting marker-free points differently over metrics and batches changes only the `updated` stamps |
| SeriesIndependence.StampsOnly | exporter/prometheusexporter/accumulator.go:62-71 | arrivals at other wall-clock times leave the same map up to stamps |
| LastWriterWins.LatestSurvives | exporter/prometheusexporter/accumulator.go:111-158 | a run of gauges, summaries, cumulative sums or cumulative histograms stores the point with the greatest timestamp, ties to the later arrival |
| LastWriterWins.OrderIrrelevant | exporter/prometheusexporter/accumulator.go:111-158 | the same points in any other order, and so at other wall-clock times, end in the same map up to the `updated` stamps, when equal timestamps of a series mean equal points |
| LastWriterWins.UnspecifiedFirstSurvives | exporter/prometheusexporter/accumulator.go:281-286 | of histograms of unspecified temporality only the first is stored |
| LastWriterWins.StoredTimeDecreases | exporter/prometheusexporter/accumulator.go:253-283 | a stored timestamp decreases exactly when a delta histogram is reset by a point ending before the stored end |
| DeltaSums.SumRun | exporter/prometheusexporter/accumulator.go:186-219 | any run of monotonic delta sums stores the total of its contributing aligned chain, with that chain's first start and last end |
| DeltaSums.Telescoping | exporter/prometheusexporter/accumulator.go:203-212 | an aligned chain is stored as first start, last end and total, cumulative |
| DeltaSums.IntTotal | exporter/prometheusexporter/accumulator.go:207-208 | the integer total is the mathematical sum exactly when that fits an int64 |
| DeltaSums.DoubleTotal | exporter/prometheusexporter/accumulator.go:209-210 | the total of double points is their sum |
| DeltaSums.RunningTotals | exporter/prometheusexporter/accumulator.go:203-218 | however a chain is batched and whatever series share its metrics, each of its input points is rewritten to the running total with the first start |
| DeltaSums.RedeliveryHarmless | exporter/prometheusexporter/accumulator.go:198-218 | one redelivery of point j after an aligned chain leaves the stored total alone exactly when j is not the last point, or the only one |
| DeltaSums.AtLeastOnceSum | exporter/prometheusexporter/accumulator.go:198-218 | a run with any redeliveries, whose first deliveries form an aligned chain, stores the whole total exactly when no point but the first comes again while it is the latest |
| DeltaSums.RedeliveryResetsSum | exporter/prometheusexporter/accumulator.go:204-218 | redelivering the last of several points replaces the total by that point alone |
| DeltaHistograms.HistogramRun | exporter/prometheusexporter/accumulator.go:238-290 | any run of delta histograms with equal bounds stores, field by field, the sums over the arrivals accepted since the last reset |
| DeltaHistograms.MixedRun | exporter/prometheusexporter/accumulator.go:238-290 | any run of delta histograms, whatever their bounds, stores the interval of the arrivals accepted since the last reset, and the sums over those since the bounds last changed |
| DeltaHistograms.BoundsChangeLoses | exporter/prometheusexporter/accumulator.go:368-385 | when bounds change along a chain, the stored interval is still the whole chain's, but its count is the sum over the chain exactly when the points before the last change of bounds sum to zero |
| DeltaHistograms.IntervalsTile | exporter/prometheusexporter/accumulator.go:253-276 | each instant of the stored interval lies in exactly one accepted interval |
| DeltaHistograms.RedeliveryIgnored | exporter/prometheusexporter/accumulator.go:256-272 | delivering any earlier point again, accepted or dropped, changes nothing |
| DeltaHistograms.AtLeastOnce | exporter/prometheusexporter/accumulator.go:253-290 | at-least-once delivery has the effect of exactly-once delivery, whatever the bounds |
| DeltaHistograms.ChainCountedOnce | exporter/prometheusexporter/accumulator.go:253-290 | if the first deliveries form a chain, the stored point is the sum over the whole chain |
| DeltaHistograms.SeriesCountedOnce | exporter/prometheusexporter/accumulator.go:224-292 | the same inside a map fed with any mix of series |
| Reachability.ReachableSound | exporter/prometheusexporter/accumulator.go:239-288 | after any sequence of deliveries and scrapes every entry is well formed and conserves its count |
| Reachability.HonestRunSafe | exporter/prometheusexporter/accumulator.go:372-376 | inputs with one bucket more than bounds never make a merge index out of range |
| Reachability.ReachableExport | exporter/prometheusexporter/collector.go:231-253 | every histogram that can be scraped: the largest bucket, what repeated bounds hide and the overflow bucket make up the count; the buckets are cumulative exactly when the true number up to the largest bound neither overflows nor exceeds the count, for distinct bounds exactly when the true total fits 64 bits |
| Interleaving.InterleavingSafe | exporter/prometheusexporter/accumulator.go:100-316 | under every interleaving each stored entry is well formed under its key, and every entry in the map, every loaded value and every collected value is one that some Accumulate stored |
| Interleaving.LoadedHasPointType | exporter/prometheusexporter/accumulator.go:111-277 | a loaded entry has the type of the point at hand, so typed accessors do not panic |
| Interleaving.SoloRunIsFold | exporter/prometheusexporter/accumulator.go:186-218 | an uninterrupted call has the effect of the sequential fold |
| Interleaving.SoloSweep | exporter/prometheusexporter/accumulator.go:302-313 | an uninterrupted Collect over distinct keys returns the live entries in visiting order and deletes the expired ones |
| Interleaving.SoloSweepIsUnexpired | exporter/prometheusexporter/accumulator.go:302-313 | over all keys an uninterrupted Collect leaves exactly the unexpired entries |
| Interleaving.SweepAgain | exporter/prometheusexporter/accumulator.go:300-313 | a scrape after a scrape returns the entries of the first that have not expired since, and with the same expiration time it returns the same and deletes nothing |
| Concurrency.Accounted | exporter/prometheusexporter/accumulator.go:61-76 | under every interleaving a delivered point is handled at most once per delivery |
| Concurrency.OnlyLosses | exporter/prometheusexporter/accumulator.go:100-316 | concurrency only loses updates: every value ever stored, loaded or collected is the sequential result of some of the delivered points of its series, in the order they were handled, none used more often than delivered |
| Concurrency.InterleavingSound | exporter/prometheusexporter/accumulator.go:239-288 | under every interleaving every value stored, loaded or collected conserves its count, and no merge about to be done indexes out of range |
| Concurrency.CollectedExport | exporter/prometheusexporter/collector.go:231-253 | the same for every histogram any Collect returns under any interleaving |
| Concurrency.ConcurrentLatest | exporter/prometheusexporter/accumulator.go:111-158 | under every interleaving a series of gauges, summaries or cumulative points shows a delivered point unaltered |
| Concurrency.ConcurrentSum | exporter/prometheusexporter/accumulator.go:186-219 | under every interleaving a delta sum shows the total of an aligned chain of delivered points, none counted twice |
| Concurrency.ConcurrentHistogram | exporter/prometheusexporter/accumulator.go:238-290 | under every interleaving a delta histogram shows an aligned chain of delivered points, none counted twice |
| Races.LatestRace | exporter/prometheusexporter/accumulator.go:111-158 | two overlapping calls with gauges, summaries or cumulative points end as one of their two orders would exactly when the point stored last is not older than the other, or is dropped |
| Races.SumRace | exporter/prometheusexporter/accumulator.go:186-218 | the same for delta sums: exactly when one point is too late to be stored, or the one stored last ends last, or they end together and it does not continue the stored point or adds up with it to the other |
| Races.HistogramRace | exporter/prometheusexporter/accumulator.go:247-288 | the same for delta histograms: exactly when one point overlaps what is stored, or the one stored last ends after the other starts |
| Races.LoadsCommute | exporter/prometheusexporter/accumulator.go:186-218 | it makes no difference which of two overlapping calls loads first |
| Races.LostIncrement | exporter/prometheusexporter/accumulator.go:186-218 | an input on which neither order fits: 2 over [10, 20] and 1 over [0, 10] may leave just the 1 |
| Races.MarkerRace | exporter/prometheusexporter/accumulator.go:181-218 | a marker between a point's load and store ends as one of the two orders exactly when the point is dropped or stored as if nothing were stored before, which for delta points means that it does not continue the series the marker ended |
| Races.EndedTotalReturns | exporter/prometheusexporter/accumulator.go:181-218 | an input on which the total of an ended counter comes back |
| Races.ScrapeRace | exporter/prometheusexporter/accumulator.go:302-313 | a point stored between a scrape's visit to an expired entry and its delete is deleted, fresh exactly when it was stored with a late enough stamp |
| Races.ScrapeAroundCall | exporter/prometheusexporter/accumulator.go:302-313 | that ends as one of the two orders exactly when the call stored nothing, or nothing fresh |
| Races.ScrapeInsideCall | exporter/prometheusexporter/accumulator.go:302-313 | a scrape between a point's load and store ends as one of the two orders exactly when the point is dropped, is fresh, or is stored as if nothing were stored before |
| Races.FreshDeleted | exporter/prometheusexporter/accumulator.go:302-313 | under any schedule, a scrape deletes an unexpired entry exactly when a fresh one was stored since its visit and nothing has touched the key since |
| Serializability.Serializable | exporter/prometheusexporter/accumulator.go:100-316 | if no store or delete of a series happens between a load and its store, any interleaving of any calls leaves what its handled points, markers and expiries leave one after the other |
| Serializability.IsolatedCallsFold | exporter/prometheusexporter/accumulator.go:61-76 | without scrapes that is the sequential fold of the points and markers in the order they were handled |
| Signature.SignatureIgnoresOrder | exporter/prometheusexporter/accumulator.go:323-329 | permuting a point's attributes does not change the signature |
| Signature.SignatureStartsWithType | exporter/prometheusexporter/accumulator.go:319-321 | the first '*'-field of a signature is the metric type, whatever the other parts hold |
| Signature.SignatureText | exporter/prometheusexporter/accumulator.go:318-337 | a signature written out, separators, attribute order, labels and type names included |
| Signature.SameSignatureSameFields | exporter/prometheusexporter/accumulator.go:318-337 | '*'-free series share a signature exactly when they spell out the same fields |
| Signature.SignatureInjective | exporter/prometheusexporter/accumulator.go:318-337 | '*'-free series agree on type, scope, name, rendered attributes, job and instance exactly when they share a signature and their resources have the same of the two identity attributes |
| Signature.NoCollision | exporter/prometheusexporter/accumulator.go:318-337 | without "job" and "instance" point attributes, sharing a signature is being the same series |
| Signature.JobAttributeCollides | exporter/prometheusexporter/accumulator.go:330-332 | where presence differs, a "job" point attribute can spell the same signature as a resource's job |
| BucketExport.ConvertDoubleHistogram | exporter/prometheusexporter/collector.go:227-257 | the export maps exactly the distinct bounds, each to the sum over distinct bounds up to it of the count at the first occurrence |
| BucketExport.ExportCommutesWithMerge | exporter/prometheusexporter/collector.go:231-253 | the export of a merged point is the bound-by-bound sum of the exports |
| BucketExport.ScrapeOfChain | exporter/prometheusexporter/collector.go:231-253 | after an aligned delta chain, with any redeliveries, each exported bucket is the sum over the chain |
| BucketLaws.BucketOfIncreasing | exporter/prometheusexporter/collector.go:240-253 | for increasing bounds a bucket is the sum of the counts up to its own |
| BucketLaws.RepeatedBoundHidden | exporter/prometheusexporter/collector.go:231-239 | a repeated bound shows the count of its first occurrence; the others are as if they were not there |
| BucketLaws.ExportIgnoresOrder | exporter/prometheusexporter/collector.go:231-253 | permuting (bound, count) pairs with distinct bounds changes nothing |
| BucketLaws.OverflowBucket | exporter/prometheusexporter/collector.go:242-257 | the count is the bucket of the largest bound plus the counts of repeated bounds plus the overflow bucket |
| BucketLaws.CumulativeExactly | exporter/prometheusexporter/collector.go:242-253 | the buckets are non-decreasing and at most the count exactly when the true number of observations up to the largest bound neither overflows 64 bits nor exceeds the count, whatever the histogram |
| BucketLaws.CumulativeIffNoOverflow | exporter/prometheusexporter/collector.go:242-253 | for a conserved histogram with distinct bounds that is when the true total fits 64 bits |
| BucketLaws.RepeatedBoundExample | exporter/prometheusexporter/collector.go:231-253 | a repeated bound on which the total overflows and the buckets are cumulative all the same |
| Collector.GetMetricMetadata | exporter/prometheusexporter/collector.go:108-125 | two aligned lists: each normalised attribute key with its attribute's text, then "job" with the service name behind its namespace and a slash, then "instance" with the instance id |
| Collector.DeduplicateTargets | exporter/prometheusexporter/collector.go:278-290 | the candidates are the first resource of each non-empty signature string, in order |
| Collector.ShareStringExactly | exporter/prometheusexporter/utils.go:13-21 | two different targets share a string exactly when one job is the other, the separator and some text, and the other instance is that text, the separator and the one instance |
| Collector.DeduplicationExact | exporter/prometheusexporter/collector.go:278-290 | the candidates are the first resources of each identified job and instance exactly when no two are so shifted, and so whenever no job holds the separator byte |
| Collector.ConfusedExample | exporter/prometheusexporter/utils.go:13-21 | two targets that share a string because a job holds the separator byte |
| Collector.TargetsAreDistinct | exporter/prometheusexporter/collector.go:278-290 | at most one candidate per distinct job and instance |
| Collector.TargetsCoverAll | exporter/prometheusexporter/collector.go:278-290 | every resource with non-empty job and instance has a candidate of its target |
| Collector.TargetLabels | exporter/prometheusexporter/collector.go:295-329 | job and instance as above; any other label joins by ';', in order, the texts of the attributes that normalise to it |
| Collector.JoinedInOrder | exporter/prometheusexporter/collector.go:295-320 | the same for the label value as the loop builds it, the three identity attributes left out |
| Collector.CreateTargetInfo | exporter/prometheusexporter/collector.go:275-340 | one label set per candidate |
| Resource.ResourceSignatureInjective | exporter/prometheusexporter/utils.go:13-41 | two resource signatures are equal exactly when both are empty or job and instance agree |
| Resource.ResourceSignatureText | exporter/prometheusexporter/utils.go:13-41 | the signature string written out: namespace, slash, name, byte 255, instance |
| Processor.ApplyToMetricAttributes | processors/metricresourceattrstoattrs/metricresourcesattrstolabels.go:86-115 | the callback is applied to every point's attributes, whatever the type of the metric, and changes nothing else |
| Processor.ProcessMetric | processors/metricresourceattrstoattrs/metricresourcesattrstolabels.go:43-77 | the key-outer, point-inner loop gives every point of a metric of any type the attributes of the closed form and keeps its other fields |
| Processor.ProcessMetrics | processors/metricresourceattrstoattrs/metricresourcesattrstolabels.go:21-82 | the same for every point of every metric, with its own resource |
| ProcessorLaws.RelabelledIsClosedForm | processors/metricresourceattrstoattrs/metricresourcesattrstolabels.go:43-77 | the value of every key after processing: point values win, service.instance.id unless service_instance_id is there first, identity labels gone |
| ProcessorLaws.IdentityRules | processors/metricresourceattrstoattrs/metricresourcesattrstolabels.go:43-77 | what becomes of "job", "instance", "service_name" and "service.instance.id", by name |
| ProcessorLaws.Idempotent | processors/metricresourceattrstoattrs/metricresourcesattrstolabels.go:43-77 | processing twice is processing once, attribute order included, although a removal moves the last attribute |
| ProcessorLaws.OrderMattersExactly | processors/metricresourceattrstoattrs/metricresourcesattrstolabels.go:50-58 | resource attribute order matters exactly in the sensitive case |
| LabelUniqueness.DoubledExactly | processors/metricresourceattrstoattrs/metricresourcesattrstolabels.go:43-77 | after the processor a name occurs twice in the exporter's label list exactly when two kept keys normalise to it, or one does and the exporter adds it |
| LabelUniqueness.DuplicateLabelsExactly | exporter/prometheusexporter/collector.go:108-125 | so, whatever normalisation does, the list is free of duplicates exactly when no two kept keys normalise alike and none becomes a "job" or "instance" that the exporter adds |
| LabelUniqueness.IdentityLabelsOnce | processors/metricresourceattrstoattrs/metricresourcesattrstolabels.go:62-77 | "job" and "instance" occur at most once each, if only those keys normalise to them |
| LabelUniqueness.ServiceNameOnce | processors/metricresourceattrstoattrs/metricresourcesattrstolabels.go:62-77 | with a resource service.name, the two spellings of the service name never both occur |
| LabelUniqueness.TwinDuplicatesExactly | processors/metricresourceattrstoattrs/metricresourcesattrstolabels.go:50-77 | if only the two spellings of service name and instance id normalise alike, duplicates occur exactly when both spellings of one survive |
| LabelUniqueness.ClashExample | processors/metricresourceattrstoattrs/metricresourcesattrstolabels.go:50-53 | a resource listing service.instance.id before service_instance_id doubles the label both normalise to |
| Curer.ByteSize | exporter/kafkaexporter/jaeger_marshaler_curer.go:305-322 | the message size with headers, by record format |
| CurerLaws.SizeOfParts | exporter/kafkaexporter/jaeger_marshaler_curer.go:305-322 | an empty message has 36 bytes with record batches and 26 without; key and value add their lengths, a header its two lengths and 10 with record batches and nothing without |
| CurerLaws.FitsExactly | exporter/kafkaexporter/jaeger_marshaler_curer.go:195-205 | a span fits exactly if trace id, bytes and overhead are together at most the limit |
| Curer.TruncateTags | exporter/kafkaexporter/jaeger_marshaler_curer.go:147-177 | one try truncates exactly the long values in place and collects the markers of keys not marked before |
| Curer.CutSpanLogsByHalf | exporter/kafkaexporter/jaeger_marshaler_curer.go:326-336 | the logs with an even index |
| Curer.CureSpan | exporter/kafkaexporter/jaeger_marshaler_curer.go:142-216 | the in-place retry loops return the first-fit result over the candidates and leave the span at the candidate reached |
| Curer.CureSpanLogs | exporter/kafkaexporter/jaeger_marshaler_curer.go:222-257 | the same for the log passes |
| CurerLaws.CuringIsFirstFit | exporter/kafkaexporter/jaeger_marshaler_curer.go:142-257 | curing succeeds exactly when some candidate fits and all before it marshal but are too big, with that candidate's bytes under the trace id; it fails exactly when none fits or a marshal error comes first; there are ten candidates with at least 32 logs, else five |
| CurerLaws.LimitIsQuotient | exporter/kafkaexporter/jaeger_marshaler_curer.go:206 | the limit of try t is floor(L / 2^t) |
| CurerLaws.TruncationClosedForm | exporter/kafkaexporter/jaeger_marshaler_curer.go:146-187 | after try t each string or binary value is its original prefix of length min(original, floor(L / 2^t)), all other tags and the order unchanged |
| CurerLaws.MarkersExact | exporter/kafkaexporter/jaeger_marshaler_curer.go:171-187 | behind the original tags stands exactly one tag per distinct key with a value above the limit, boolean, true, and keyed with the suffix ".htcollector.truncated" |
| CurerLaws.ThinnedClosedForm | exporter/kafkaexporter/jaeger_marshaler_curer.go:326-336 | after t passes there are ceil(n / 2^t) logs and log i is the original log i * 2^t |
| CurerLaws.LogCandidateClosedForm | exporter/kafkaexporter/jaeger_marshaler_curer.go:222-235 | each log pass leaves the tags of the last attribute try and exactly one more, "htcollector.spanlogstruncated" = true, and ceil(n / 2^(u + 1)) logs |
| CurerLaws.EachPassShrinks | exporter/kafkaexporter/jaeger_marshaler_curer.go:211-225 | with at least 32 logs each of the five passes shrinks the list and the first log survives |
| Marshaler.Marshal | exporter/kafkaexporter/jaeger_marshaler_curer.go:47-94 | messages, errors and the final state of every span, in order |
| Marshaler.SpanAt | exporter/kafkaexporter/jaeger_marshaler_curer.go:55-57 | span j of batch i is marshalled at its place in sending order, with the process of its batch |
| CurerLaws.MessagesAccount | exporter/kafkaexporter/jaeger_marshaler_curer.go:55-93 | messages stand one-to-one in order with the kept spans; oversize only when curing failed, then with the original bytes |
| CurerLaws.AllFit | exporter/kafkaexporter/jaeger_marshaler_curer.go:55-93 | if every span fits as it is, each is sent with its own bytes under its trace id, in order and without errors |
| CurerLaws.ErrorsAccount | exporter/kafkaexporter/jaeger_marshaler_curer.go:58-63 | the errors are those of the spans that do not marshal, in order |
| CurerLaws.LeftIsSent | exporter/kafkaexporter/jaeger_marshaler_curer.go:74-93 | only tags and logs of oversize spans change: such a span is left as the candidate at which curing stops, and a cured message carries the bytes of the span as it is left |
| CurerLaws.DroppingBoundsSize | exporter/kafkaexporter/jaeger_marshaler_curer.go:81-88 | with dropSpans every message respects the limit: key, value and 36 or 26 bytes together |
| CurerLaws.NothingLost | exporter/kafkaexporter/jaeger_marshaler_curer.go:55-93 | without dropSpans every span yields one message or one error |

## Left out

- Float64 rounding and NaN bounds: doubles are reals.
- Exemplars, and the min and max of histogram points, which the merge does not carry over.
- Histogram points without buckets: the conservation and export laws are stated for one bucket more than bounds. The
  accumulator itself also accepts bucketless points as long as no merge reads a missing bucket.
- Timestamps of 2^63 nanoseconds and above, which Go's AsTime would turn negative.
- Races of three or more overlapping calls on one series have no exact condition here; `Concurrency.OnlyLosses` says what
  they can leave.
- Accumulator.LastValueAccumulator.Accumulate: requires that no metric object occurs twice in a batch.
- A negative attribute size limit, on which the curer's slicing panics; the model's limit is a natural number.
- The Prometheus client, sarama, protobuf and JSON encoding, Jaeger translation and label normalisation are parameters.
- convertGauge, convertSum and convertSummary of the collector, which copy one value each.
- spanAsString, valueToString and valueSize of the curer, which only log.
- Receivers, rate limiter, tenant id processor, span counter, metric remover, factories and configuration: wiring and simple
  traversals.
