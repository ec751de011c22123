# A verified model of the libprom metrics engine

The repository embeds a copy of libprom, a C library that keeps Prometheus metrics in memory and prints
them in the text exposition format, and adds a small program that feeds it readings of the host. This
project models the engine in Dafny and proves what it promises:

- the chained hash table agrees with a finite map over every run of sets and gets, through the
  half-torn-down state of its doubling rehash, and its growth is exactly accounted for;
- the string builder stays in bounds although growth never records the new capacity, and prints the
  abstract concatenation;
- the printed identity `name_suffix{k="v",...}` of a clean sample can be read back, so it identifies the sample;
- threads that add, subtract and set one sample through a weak compare-and-swap lose no update;
- for strictly ascending bounds, a histogram's samples, reached through its two maps, count the observations
  at or below each bound, and a scrape that runs while observations are made prints ordered buckets;
- find-or-create returns one object per printed identity over every run of lookups, and every run of
  observations gives each series its own values;
- a scrape returns exactly the specified text of every registered metric, which reads back line by line; the
  lines of a metric differ in name or labels, exactly except for histograms with series and equal bounds;
- the CPU percentage computed from successive readings is a percentage, and the results telescope.

## How the project is laid out

| file | content |
|---|---|
| Prelude.dfy | `Option`, powers of two, 64-bit wrap-around, remainders |
| Hash.dfy | the string hash in `size_t` arithmetic |
| Table.dfy | the value of a chained table: put, lookup, rehash, growth account, refinement of a finite map |
| LinkedList.dfy | the linked list with its node pointers |
| Map.dfy | the hash table on the heap, proved against Table.dfy |
| StringBuilder.dfy | the growable buffer |
| LValue.dfy | the printed identity and its parser |
| Formatter.dfy | the printing methods on the shared builder |
| Sample.dfy, Interleaving.dfy | one sample for one caller; many threads on one sample as atomic steps |
| Buckets.dfy | bucket bounds and keys, and the constructor's check |
| HistogramSpec.dfy | which lines a histogram has and which values they should hold |
| Histogram.dfy | the histogram object: construction and observation |
| HistogramScrape.dfy | a scrape interleaved with observations |
| Metric.dfy | metrics, find-or-create |
| Exposition.dfy | collectors and the text of a scrape |
| Uniqueness.dfy | when all lines of a metric, and of a scrape, have their own name and labels |
| TextReader.dfy, ReadBack.dfy | a reader of the exposition format, and what it reads of a metric and of a scrape |
| CpuUsage.dfy | `get_cpu_usage` |

Methods carry ghost copies of what they build (`items`, `T`, `M`, `slots`, `held`), and `Valid()` ties these to
the real fields. Heap methods are proved equal to functions on values, and the laws are lemmas about those
functions. `hide` statements at the head of a body only make its proof cheaper.

## Conventions

C strings are sequences of characters without NUL; a character stands for the byte of its code, and
`Hashing.CharValue` gives it the sign of a C `char`. Doubles are reals. Printing a double (`"%.17g"`) is a
parameter `number`; `HistogramBuckets.Printer` says what is used of it (short, no quotes, no fraction of zero),
`HistogramBuckets.TellsApart` that the bounds of one histogram are printed differently if they differ, and
`ReadBack.PlainNumbers` that a printed number is one word. A stored NULL value is `None`. Allocation and locking
succeed.
The public format is the Prometheus text exposition format
(https://prometheus.io/docs/instrumenting/exposition_formats/), sections "Grouping and sorting" and
"Histograms and summaries".

## Where code and promise differ

- The constructor's comment says bucket bounds must increase, but it accepts equal bounds. Equal bounds have
  equal keys and share one sample, which each observation raises twice. One bucket counts correctly exactly
  when its key is its own (`HistogramSpec.BucketExact`); over all runs the counts are right, and scrapes are
  ordered, exactly when the accepted bounds ascend strictly (`HistogramScrape.RightForStrictBounds`). With
  the bounds 1.0 and 1.0, two observations of 0.5 are printed as 4, 4 and, for `+Inf`, 2
  (`HistogramScrape.EqualBoundsFail`).
- The exposition format wants every line to have its own name and labels. Equal bounds repeat a bucket line
  in every series (`Uniqueness.EqualBoundsRepeat`). The lines of one metric keep the rule for all label values,
  exactly unless it is a histogram with series whose bounds do not ascend strictly
  (`Uniqueness.MetricLinesUnique`). Over a whole scrape it is kept exactly if every metric by itself keeps it,
  provided no two metrics have lines of the same name (`Uniqueness.AllLinesUnique`). Nothing checks that: a
  histogram `x` and a counter `x_count` print the same line (`Uniqueness.CountNameCollides`), and so do metrics
  of one name in two collectors (`Uniqueness.SameNameCollides`).
- The exposition format wants `+Inf` to be equal to the count. A scrape during observations can print count
  behind it by one (`HistogramScrape.CountBehind`) and ahead of it by any number
  (`HistogramScrape.CountAhead`); `HistogramScrape.PrintedCountExactly` gives the difference exactly.
- The exposition format wants `+Inf` to be at least every bucket. A scrape during an observation can print it
  one below, in every histogram that has a bucket (`HistogramScrape.LagHappens`), and never more
  (`HistogramScrape.ScrapeIsOrdered`). It happens exactly when an observation has raised the last bucket
  before that is read and has not raised `+Inf` when that is read, and no finished observation was above the
  last bound (`HistogramScrape.PrintedLagExactly`); with the lock free at the read of the last bucket it
  cannot happen.
- Label values are not escaped. Metrics with two labels or more always have different label values that print
  the same text; metrics with at most one label never have (`LValues.OneLabelExactly`). Values are told apart
  if all but the last are free of quotes (`LValues.LValueInjective`), and an identity reads back as itself
  exactly when it is clean (`LValues.RoundTrip`).
- Help texts and label values are not escaped either where they have newlines: a HELP line reads back exactly
  without one (`TextReader.HelpReadsBack`), and so does a sample line (`TextReader.SampleReadsBack`).
- `get_cpu_usage` promises 0 to 100. It keeps that exactly when the idle time grew by no more than all time,
  as 64-bit differences (`CpuUsage.PercentageExactly`); a counter that runs backwards can give 200
  (`CpuUsage.BackwardsCounter`).
- The doubling loop of the string builder ends exactly while at most 2^63 bytes are needed
  (`StringBuilders.GrowthTerminates`).
- `prom_metric_new` means to return NULL for the label keys `le` and `quantile`. It first hands the object to
  `prom_metric_destroy`, whose fields `samples`, `rwlock`, `label_keys` and `label_key_count` were never set,
  and `prom_histogram_new` does not look at the result either. No metric comes of such keys, but what does
  come is not defined: `Metrics.Creation` has a result `Undefined` for it.

## Model

| member | source | states |
|---|---|---|
| Hashing.GetIndex | lib/prom/src/prom_map.c:170-179 | the hash loop stays below the table size and computes the recursive definition |
| Hashing.RoundIsExact | lib/prom/src/prom_map.c:175-177 | for sizes 32*2^k up to 2^32 neither product leaves 64 bits, and the wrap-around of a negative character does not show |
| Hashing.IndexIsExact | lib/prom/src/prom_map.c:170-179 | for every key the 64-bit loop equals the unbounded-integer definition |
| Hashing.IndexIsSum | lib/prom/src/prom_map.c:170-179 | for every key the index is the sum of its bytes, negative from 128 on, each times the coefficients of the later rounds, modulo the size; the coefficients start at 31415 and are multiplied by 27183 modulo the size less one |
| Hashing.OneByte | lib/prom/src/prom_map.c:174-178 | the empty key has index 0, a key of one byte that byte's signed value modulo the size |
| Hashing.TwoBytes | lib/prom/src/prom_map.c:174-178 | the index of a key of two bytes, with both constants |
| Tables.Find | lib/prom/src/prom_map.c:216-228 | the first entry with the key, or none |
| Tables.PutRefines | lib/prom/src/prom_map.c:252-288 | an insertion updates the represented map at its key and nowhere else, keeps every entry in its hash's bucket and every key unique, and extends the key list exactly for a new key |
| Tables.PutAllRefines | lib/prom/src/prom_map.c:324-345 | inserting entries with distinct keys into an empty table represents the map of those entries, with their keys in insertion order |
| Tables.ChainsInOrder | lib/prom/src/prom_map.c:252-288 | each chain of a newly filled table lists the entries that hash there in the order of their insertion |
| Tables.PrefixEntries | lib/prom/src/prom_map.c:324-328 | the first n buckets hold distinct keys, namely those of the map that hash below n |
| Tables.TornDown | lib/prom/src/prom_map.c:324-350 | at every step of the rehash the new table represents the moved entries, shares no key with the unvisited nodes, both together are the original map, and the next insertion replaces nothing |
| Tables.ChainIsNew | lib/prom/src/prom_map.c:329-345 | no insertion of any old chain finds its key in the table built so far |
| Tables.RehashRefines | lib/prom/src/prom_map.c:290-365 | the rehash keeps the map, its key list is the old buckets' keys in bucket order, and it moves one node per key |
| Tables.AccountDoubles | lib/prom/src/prom_map.c:294-298 | a rehash keeps the exact account of sizes and moved nodes |
| Tables.GrowSound | lib/prom/src/prom_map.c:290-365 | making room keeps the map and leaves the table at most half full |
| Tables.LoopsFitInt | lib/prom/src/prom_map.c:312-327 | the rehash's loops over an int can reach the new size if and only if the map has at most 2^29 keys |
| Tables.KeysInOrder | lib/prom/src/prom_map.c:252-288 | a set puts a new key at the end of the key list, which a rehash first puts into the old buckets' order |
| Tables.SetSound | lib/prom/src/prom_map.c:367-390 | a set changes the represented map at its key only, with or without a rehash, and keeps the account |
| Tables.RunRefines | lib/prom/src/prom_map.c:367-390 | any run of sets from a new table refines the map those sets build: every entry in its bucket, every key once, the key list without repetition |
| Tables.RunReturnsLast | lib/prom/src/prom_map.c:205-288 | after any run of sets a lookup gives the value last set for the key, or NULL |
| Tables.RunIsAmortised | lib/prom/src/prom_map.c:290-365 | over any run the size is 32*2^k, the load is within its bounds, the nodes moved by all rehashes are exactly (size-32)/2+k, and once grown fewer than three per key |
| LinkedLists.RemoveFirstAt | lib/prom/src/prom_linked_list.c:154-171 | removal drops exactly the first match |
| LinkedLists.LinkedList.constructor | lib/prom/src/prom_linked_list.c:27-38 | a new list is empty |
| LinkedLists.LinkedList.Append | lib/prom/src/prom_linked_list.c:85-103 | the item goes to the end; the chain stays acyclic with tail and size right |
| LinkedLists.LinkedList.Push | lib/prom/src/prom_linked_list.c:105-120 | the item goes to the front |
| LinkedLists.LinkedList.Pop | lib/prom/src/prom_linked_list.c:122-145 | the first item goes and is returned, NULL from an empty list, which stays |
| LinkedLists.LinkedList.Locate | lib/prom/src/prom_linked_list.c:154-163 | the search loop stops at the first match and knows its predecessor |
| LinkedLists.LinkedList.Remove | lib/prom/src/prom_linked_list.c:147-189 | the first match goes, and nothing else |
| LinkedLists.LinkedList.Unlink | lib/prom/src/prom_linked_list.c:168-174 | the rewiring takes out the node at its position and mends the tail |
| LinkedLists.LinkedList.Replace | lib/prom/src/prom_map.c:281 | a node's item is replaced in place |
| LinkedLists.LinkedList.Purge | lib/prom/src/prom_linked_list.c:40-63 | the list is empty afterwards |
| LinkedLists.LinkedList.First | lib/prom/src/prom_linked_list.c:73-77 | the first item or NULL |
| LinkedLists.LinkedList.Last | lib/prom/src/prom_linked_list.c:79-83 | the last item or NULL |
| LinkedLists.LinkedList.Size | lib/prom/src/prom_linked_list.c:201-205 | the length |
| Maps.Scan | lib/prom/src/prom_map.c:216-228 | walking a chain finds the first node with the key |
| Maps.SetInternal | lib/prom/src/prom_map.c:252-288 | on the heap, exactly the table's insertion: replace in place or append to chain and key list |
| Maps.NewTable | lib/prom/src/prom_map.c:301-320 | an empty array of chains and an empty key list in new, separate objects |
| Maps.MoveChain | lib/prom/src/prom_map.c:327-345 | the inner loop moves one chain, every insertion appending |
| Maps.MoveAll | lib/prom/src/prom_map.c:324-350 | the outer loop builds the rehashed table and clears the old slots behind it |
| Maps.PromMap.constructor | lib/prom/src/prom_map.c:99-148 | a new map is empty with 32 buckets |
| Maps.PromMap.Get | lib/prom/src/prom_map.c:205-250 | the value last set for the key, or NULL |
| Maps.PromMap.EnsureSpace | lib/prom/src/prom_map.c:290-365 | over half full the table is rehashed at twice the size, the map unchanged |
| Maps.PromMap.Set | lib/prom/src/prom_map.c:367-390 | the map gains or changes one key; chains, key list and account are those of the table's set |
| Maps.PromMap.KeysListed | lib/prom/src/prom_map.c:252-288 | the key list holds each key of the map exactly once, and size is their number |
| StringBuilders.DoubledIsLeast | lib/prom/src/prom_string_builder.c:107-109 | the growth loop stops at the least 128*2^k that is enough |
| StringBuilders.GrowthTerminates | lib/prom/src/prom_string_builder.c:107-109 | in size_t the loop reaches enough if and only if at most 2^63 bytes are needed |
| StringBuilders.StringBuilder.constructor | lib/prom/src/prom_string_builder.c:40-63 | a new builder is empty |
| StringBuilders.StringBuilder.Clear | lib/prom/src/prom_string_builder.c:65-71 | empty again, in a new buffer |
| StringBuilders.StringBuilder.Truncate | lib/prom/src/prom_string_builder.c:73-82 | cuts to the length given unless it is not shorter |
| StringBuilders.StringBuilder.EnsureSpace | lib/prom/src/prom_string_builder.c:101-115 | the addition and a terminator fit; the buffer's real size is the least capacity that is enough, and the contents stay |
| StringBuilders.StringBuilder.AddStr | lib/prom/src/prom_string_builder.c:117-131 | appends the string in bounds, terminator behind it |
| StringBuilders.StringBuilder.AddChar | lib/prom/src/prom_string_builder.c:133-143 | appends the character in bounds |
| StringBuilders.StringBuilder.Dump | lib/prom/src/prom_string_builder.c:151-158 | a copy of the contents |
| LValues.FirstLabels | lib/prom/src/prom_metric_formatter.c:112-147 | the identity without labels and with one label, character by character |
| LValues.NextLabel | lib/prom/src/prom_metric_formatter.c:130-144 | one more label goes before the closing brace, behind a comma |
| LValues.TerminatedIsSeparated | lib/prom/src/prom_metric_formatter.c:132-142 | cutting the last comma of the loop's output leaves the comma-separated labels |
| LValues.ParseLabelsPrinted | lib/prom/src/prom_metric_formatter.c:130-144 | clean labels read back from their text |
| LValues.ParsedLabelsPrint | lib/prom/src/prom_metric_formatter.c:130-144 | whatever reads as labels is clean and is printed the same again |
| LValues.RoundTrip | lib/prom/src/prom_metric_formatter.c:112-147 | an identity reads back as itself if and only if its name has no brace, its keys no equals sign and its values no quote |
| LValues.PrintInjective | lib/prom/src/prom_metric_formatter.c:112-147 | clean identities of any metrics that print the same text are the same |
| LValues.LabelsInjective | lib/prom/src/prom_metric_formatter.c:130-144 | the printed labels determine the values, for any keys, if only the last value may have quotes |
| LValues.LValueInjective | lib/prom/src/prom_metric_formatter.c:112-147 | for one metric, different label values print differently if only the last value may have quotes |
| LValues.QuotesCollide | lib/prom/src/prom_metric_formatter.c:137-140 | for any metric with two labels or more, two different label vectors that print the same text |
| LValues.OneLabelExactly | lib/prom/src/prom_metric_formatter.c:112-147 | all label values, quotes included, are told apart if and only if the metric has at most one label |
| TextReader.HelpReadsBack | lib/prom/src/prom_metric_formatter.c:69-89 | the HELP line reads back as prefixed name and help text if and only if the text has no newline; no help text prints nothing |
| TextReader.TypeReadsBack | lib/prom/src/prom_metric_formatter.c:91-110 | the TYPE line reads back as prefixed name and the word for the type, all five spelled out |
| TextReader.SampleReadsBack | lib/prom/src/prom_metric_formatter.c:149-162 | a sample line reads back as prefixed identity and printed value if and only if the identity has no newline |
| Formatters.Formatter.LoadHelp | lib/prom/src/prom_metric_formatter.c:69-89 | appends the HELP line, nothing without a help text |
| Formatters.Formatter.LoadType | lib/prom/src/prom_metric_formatter.c:91-110 | appends the TYPE line |
| Formatters.Formatter.LoadLValue | lib/prom/src/prom_metric_formatter.c:112-147 | appends the identity, whatever the builder already held |
| Formatters.Formatter.LoadSample | lib/prom/src/prom_metric_formatter.c:149-162 | appends prefix, identity and value as one line |
| Formatters.Formatter.Clear | lib/prom/src/prom_metric_formatter.c:164-168 | empties the text |
| Formatters.Formatter.Dump | lib/prom/src/prom_metric_formatter.c:170-177 | hands out the text and empties it |
| Samples.Sample.constructor | lib/prom/src/prom_metric_sample.c:30-39 | type, identity and value as given |
| Samples.Sample.Add | lib/prom/src/prom_metric_sample.c:61-72 | adds any amount that is not negative, on any type and whatever fails spuriously, and returns 0; refuses others with 1 |
| Samples.Sample.Sub | lib/prom/src/prom_metric_sample.c:74-88 | subtracts on gauges and returns 0; refuses with 1 on other types |
| Samples.Sample.Set | lib/prom/src/prom_metric_sample.c:90-100 | stores any value on gauges and values that are not negative on counters and returns 0; refuses others with 1 |
| Interleaving.StepKeepsInv | lib/prom/src/prom_metric_sample.c:61-100 | every atomic step keeps the cell equal to the replay of the commits and every thread's calls equal to its commits and at most one pending |
| Interleaving.EveryRunReplays | lib/prom/src/prom_metric_sample.c:61-100 | in every state of every interleaving the cell is the replay, in commit order, of the committed operations, and each thread's calls are its commits followed by the one in progress |
| Interleaving.OneMore | lib/prom/src/prom_metric_sample.c:61-100 | what one more operation adds to a replay and to a total |
| Interleaving.CanCommit | lib/prom/src/prom_metric_sample.c:61-100 | from every state of every run a thread with a call in progress can be driven alone to its commit, which changes the cell as the call says |
| Interleaving.CanCall | lib/prom/src/prom_metric_sample.c:61-100 | from every state of every run an idle thread can make any call; exactly the calls that the guards refuse change nothing |
| Interleaving.CanFailSpuriously | lib/prom/src/prom_metric_sample.c:68-71 | a thread in the retry loop can fail spuriously any number of times, and nothing changes |
| Interleaving.FailureHasACause | lib/prom/src/prom_metric_sample.c:66-71 | a failure that is not spurious means another thread committed since this one's last read |
| Interleaving.NoUpdateLost | lib/prom/src/prom_metric_sample.c:61-88 | without stores, when all calls have returned the cell has moved by the total of all calls |
| Interleaving.CounterNeverNegative | lib/prom/src/prom_metric_sample.c:61-100 | a counter from zero is never negative in any interleaving |
| Interleaving.NeverDecreasesBetweenResets | lib/prom/src/prom_metric_sample.c:61-100 | between stores no sample but a gauge decreases |
| Interleaving.HistogramOnlyAdds | lib/prom/src/prom_metric_sample.c:74-98 | on a histogram sample only non-negative additions ever take effect |
| HistogramBuckets.KeysHavePoint | lib/prom/src/prom_histogram_buckets.c:31-39 | printed bounds have a decimal point and no quote, so none is +Inf, count or sum |
| HistogramBuckets.KeysAsPrinted | lib/prom/src/prom_histogram_buckets.c:31-39 | a bucket's key is the printed number, with .0 behind it exactly if it has no point |
| HistogramBuckets.KeyTellsNumber | lib/prom/src/prom_histogram_buckets.c:31-39 | the printed number can be told from the key, so bounds printed differently have different keys |
| HistogramBuckets.KeysDistinct | lib/prom/src/prom_histogram.c:46-56 | for bounds the constructor accepts, keys are distinct if and only if the bounds ascend strictly |
| HistogramBuckets.New | lib/prom/src/prom_histogram_buckets.c:41-73 | the listed bounds with their printed keys |
| HistogramBuckets.Linear | lib/prom/src/prom_histogram_buckets.c:75-103 | refused up to one bound; else start+width*i, ascending iff the width is not negative, strictly iff it is positive |
| HistogramBuckets.Exponential | lib/prom/src/prom_histogram_buckets.c:105-141 | refused exactly for the documented arguments; else start*factor^i, strictly ascending |
| HistogramBuckets.GeometricOrder | lib/prom/src/prom_histogram_buckets.c:133-136 | geometric bounds ascend strictly |
| HistogramBuckets.LinearOrder | lib/prom/src/prom_histogram_buckets.c:95-98 | evenly spaced bounds ascend according to the sign of the width |
| HistogramBuckets.Increasing | lib/prom/src/prom_histogram.c:47-54 | comparing neighbours accepts exactly the ascending bounds |
| HistogramBuckets.DefaultsAscend | lib/prom/src/prom_histogram.c:42-43 | the eleven default bounds ascend strictly |
| HistogramSpec.LineIdInjective | lib/prom/src/prom_metric_sample_histogram.c:114-213 | within one histogram different keys have different lines, whatever the label values |
| HistogramSpec.LinesUnique | lib/prom/src/prom_metric_sample_histogram.c:316-393 | the identity of a line determines its key and label values, over all keys and label values of one histogram metric |
| HistogramSpec.OneLe | lib/prom/src/prom_metric_sample_histogram.c:334-339 | read back, a bucket line has the user's labels and then one label le with the bucket's key, and no other le; count and sum lines have none |
| HistogramSpec.OnlyBucketCounts | lib/prom/src/prom_metric_sample_histogram.c:258-276 | a bucket with a key of its own counts the observations at or below its bound |
| HistogramSpec.BucketExact | lib/prom/src/prom_histogram.c:46-56 | a bucket counts right for all observations if and only if no other bucket has its key |
| HistogramSpec.CountLeIsSize | lib/prom/src/prom_metric_sample_histogram.c:258-276 | the count of a bound is the number of positions at which a value not above it was observed |
| HistogramSpec.SumLaws | lib/prom/src/prom_metric_sample_histogram.c:296-304 | the sum of observations is that of the non-negative ones, wherever the others stand |
| HistogramSpec.CountLeMonotone | lib/prom/src/prom_metric_sample_histogram.c:258-276 | counts ascend with the bound up to the number of observations |
| HistogramSpec.DescendReaches | lib/prom/src/prom_metric_sample_histogram.c:260-262 | on ascending bounds the loop raises exactly the buckets whose bound is not below the value |
| HistogramSpec.DescendAt | lib/prom/src/prom_metric_sample_histogram.c:260-262 | an observation raises neighbouring buckets from the highest down |
| Histograms.SampleHistogram.LValueForBucket | lib/prom/src/prom_metric_sample_histogram.c:316-393 | the bucket line's identity, the private buffer empty again |
| Histograms.SampleHistogram.InitLine | lib/prom/src/prom_metric_sample_histogram.c:132-140 | one more line: listed last, reached from its key, with a zero sample, earlier lines intact |
| Histograms.SampleHistogram.InitBucketSamples | lib/prom/src/prom_metric_sample_histogram.c:114-143 | one line per bucket in ascending order |
| Histograms.SampleHistogram.InitInf | lib/prom/src/prom_metric_sample_histogram.c:145-163 | then the +Inf line |
| Histograms.SampleHistogram.InitCount | lib/prom/src/prom_metric_sample_histogram.c:165-187 | then the count line |
| Histograms.SampleHistogram.InitSummary | lib/prom/src/prom_metric_sample_histogram.c:189-213 | then the sum line |
| Histograms.NewHistogram | lib/prom/src/prom_metric_sample_histogram.c:57-112 | a new histogram has all lines and no observations |
| Histograms.SampleHistogram.Raise | lib/prom/src/prom_metric_sample_histogram.c:263-275 | the two lookups never fail and raise the one sample behind the line |
| Histograms.SampleHistogram.RaiseBuckets | lib/prom/src/prom_metric_sample_histogram.c:259-276 | every bucket sample grows by its hits, in descending order, other lines unchanged |
| Histograms.SampleHistogram.Observe | lib/prom/src/prom_metric_sample_histogram.c:250-314 | one more observation is counted everywhere in the stated order; 2 exactly for a negative value, which the sum refuses |
| Histograms.SampleHistogram.LookupsCount | lib/prom/src/prom_metric_sample_histogram.c:250-314 | after any observations on strictly ascending bounds the sample reached for a bucket is the count at or below its bound, +Inf and count the number of observations, sum the non-negative total |
| HistogramScrape.PlanAt | lib/prom/src/prom_metric_sample_histogram.c:259-304 | which line an observation raises at its k-th update |
| HistogramScrape.AlwaysOrdered | lib/prom/src/prom_metric_sample_histogram.c:259-304 | at every moment buckets ascend, and +Inf and count lag by at most one |
| HistogramScrape.EveryRunInv | lib/prom/src/prom_metric_sample_histogram.c:250-314 | with a key for every bucket, the invariant holds in every state of every interleaving of observations and scrapes |
| HistogramScrape.ScrapeIsOrdered | lib/prom/src/prom_metric_formatter.c:202-213 | with a key for every bucket, a scrape interleaved with any observations prints non-decreasing buckets, +Inf at least the last minus one, count at least +Inf minus one |
| HistogramScrape.FreeStateCells | lib/prom/src/prom_metric_sample_histogram.c:250-314 | in every run, shared keys included, whenever the lock is free each cell has the value the observations give its key, +Inf and count the number of all |
| HistogramScrape.DueIsBucketValue | lib/prom/src/prom_metric_sample_histogram.c:259-276 | what the planned updates add up to is what the histogram object counts for the same observations |
| HistogramScrape.FreeStateCounts | lib/prom/src/prom_metric_sample_histogram.c:250-314 | with a key for every bucket, whenever the lock is free each bucket holds the number of observations at or below its bound |
| HistogramScrape.ScrapeOrderedExactly | lib/prom/src/prom_histogram.c:46-56 | the scrapes of all runs are ordered if and only if no two buckets share a key |
| HistogramScrape.CountsExactly | lib/prom/src/prom_histogram.c:46-56 | the counts of all runs are right whenever the lock is free if and only if no two buckets share a key |
| HistogramScrape.RightForStrictBounds | lib/prom/src/prom_histogram.c:46-56 | for accepted bounds, both hold if and only if the bounds ascend strictly |
| HistogramScrape.EqualBoundsFail | lib/prom/src/prom_histogram.c:46-56 | with the accepted bounds 1.0 and 1.0, a run whose scrape prints 4, 4 and 2 for two observations |
| HistogramScrape.LagExactly | lib/prom/src/prom_metric_sample_histogram.c:253-294 | +Inf read at j is below the last bucket read at i if and only if one observation, at or below the last bound, was between raising the two at both reads, and no finished one was above that bound |
| HistogramScrape.PrintedLagExactly | lib/prom/src/prom_metric_formatter.c:202-213 | in what one scrape prints, +Inf is at least every bucket if and only if this was not so at its two reads; a free lock at the first read suffices |
| HistogramScrape.PrintedCountExactly | lib/prom/src/prom_metric_formatter.c:202-213 | in what one scrape prints, count is +Inf plus what count gained between the two reads, less one if an observation was between raising the two at the first; hence when they are equal |
| HistogramScrape.CountAhead | lib/prom/src/prom_metric_sample_histogram.c:278-294 | for any values, a run whose scrape prints 0 in +Inf and their number in count |
| HistogramScrape.CountBehind | lib/prom/src/prom_metric_sample_histogram.c:278-294 | a run whose scrape prints 1 in +Inf and 0 in count |
| HistogramScrape.LaterScrapesNotLower | lib/prom/src/prom_metric_sample.c:61-72 | over a run, whatever the keys, no scrape prints a line lower than an earlier one did |
| HistogramScrape.LagHappens | lib/prom/src/prom_metric_sample_histogram.c:278-286 | for every histogram with a bucket, a run whose scrape prints +Inf below the last bucket |
| Metrics.NewMetric | lib/prom/src/prom_metric.c:37-91 | no metric, and nothing defined, exactly for the label keys le and quantile; else an empty metric |
| Metrics.NewHistogramMetric | lib/prom/src/prom_histogram.c:34-58 | for other label keys NULL exactly for descending bounds; the eleven default bounds if none are given; reserved label keys leave nothing defined |
| Metrics.Metric.TakeKey | lib/prom/src/prom_metric.c:142-152 | the identity is printed and the private buffer is empty again |
| Metrics.Metric.Store | lib/prom/src/prom_map.c:367-390 | storing a new series keeps all others apart and in order |
| Metrics.Metric.FromLabels | lib/prom/src/prom_metric.c:134-169 | the stored sample or a new zero one under the identity, no other sample touched or lost |
| Metrics.Metric.HistogramFromLabels | lib/prom/src/prom_metric.c:171-210 | the stored histogram or a new one without observations, no other series touched or lost |
| Metrics.Metric.Observe | lib/prom/src/prom_histogram.c:65-78 | 1 for other metric types; else the series of these label values exists and gains the observation, every other keeps its own, and the metric stays apart from all objects it had not held |
| Metrics.AnyObservations | lib/prom/src/prom_histogram.c:65-78 | over any run of observations every series gains exactly the values observed on its label values, in order, and 2 is returned exactly for the negative ones |
| Metrics.SameSeriesSameKey | lib/prom/src/prom_metric.c:134-210 | a series is stored under one key only |
| Metrics.AnyLookups | lib/prom/src/prom_metric.c:134-210 | over any run of lookups, whatever the label values, results are the same object if and only if these print the same identity, which, if only the last values may have quotes, means that they are equal; none is lost |
| Metrics.Metric.Set | lib/prom/src/prom_gauge.c:97-108 | 1 for other metric types; else the sample of these label values exists with the value, every other keeps its own |
| Exposition.Collector.AddMetric | lib/prom/src/prom_collector.c:111-120 | a second metric of the same name is refused; else it is stored under its name |
| Exposition.EachMetricOnce | lib/prom/src/prom_collector.c:111-120 | the key list of a collector names each registered metric exactly once |
| Exposition.LoadHistogram | lib/prom/src/prom_metric_formatter.c:202-213 | the histogram's lines in list order; no lookup fails |
| Exposition.PrintedHistogram | lib/prom/src/prom_metric_formatter.c:197-213 | these are the ascending buckets, +Inf, count and sum with the counts of the observations |
| Exposition.PrintedScalars | lib/prom/src/prom_metric_formatter.c:193-222 | the lines of a counter or gauge are its stored identities in key order, each with its sample's value |
| Exposition.ValueShown | lib/prom/src/prom_metric_formatter.c:193-222 | the value of the sample of some label values is shown in exactly one line, which carries their identity |
| Exposition.SeriesInOrder | lib/prom/src/prom_metric_formatter.c:193-213 | line i of series q of a histogram metric stands at its place in the metric's lines, series in key order |
| ReadBack.MetricReadsBack | lib/prom/src/prom_metric_formatter.c:179-223 | the text of a metric reads back as HELP and TYPE line unless compact, its lines with identity and printed value in order, and a blank line |
| ReadBack.ScrapeReadsBack | lib/prom/src/prom_metric_formatter.c:225-276 | the text of a scrape reads back as what its metrics print, one after the other |
| Exposition.LoadMetric | lib/prom/src/prom_metric_formatter.c:179-223 | optional headers, the lines of all series in key order, a blank line; the error codes are unreachable |
| Exposition.LoadCollector | lib/prom/src/prom_metric_formatter.c:249-265 | the texts of a collector's metrics in key order |
| Exposition.LoadMetrics | lib/prom/src/prom_metric_formatter.c:225-276 | exactly the text of the registry is appended and 0 returned; the scrape metric, if given, ends with the last duration recorded under each key, every collector's own if it has one label, and is otherwise unchanged |
| Exposition.Bridge | lib/prom/src/prom_collector_registry.c:279-304 | the returned text is that of the registry and, with the feature for it, of the scrape metric, which then shows the total duration; the buffer is empty again |
| HistogramSpec.LineDetermines | lib/prom/src/prom_metric_sample_histogram.c:316-393 | whatever the label values, the identity of a line determines its key and the printed labels |
| Uniqueness.SeriesLinesUnique | lib/prom/src/prom_metric_formatter.c:193-222 | whatever the label values, two lines of one metric with the same identity are the same line of the same series, if its buckets share no key |
| Uniqueness.HistogramLinesExactly | lib/prom/src/prom_metric_formatter.c:193-222 | all lines of a histogram metric differ in name or labels if and only if no two buckets share a key or it has no series |
| Uniqueness.MetricLinesUnique | lib/prom/src/prom_metric_formatter.c:193-222 | all lines of a metric differ in name or labels, for a histogram metric with series if and only if its accepted bounds ascend strictly |
| Uniqueness.EqualBoundsRepeat | lib/prom/src/prom_histogram.c:46-56 | a metric made with the accepted bounds 1.0 and 1.0 repeats a line from its first series on |
| Uniqueness.EveryMetricPrinted | lib/prom/src/prom_metric_formatter.c:231-265 | metric j of collector i is printed at its place, collectors and metrics in key order, and nothing else is |
| Uniqueness.RegistryTextIs | lib/prom/src/prom_metric_formatter.c:231-275 | the text of a scrape is that of its metrics, one after the other |
| Uniqueness.AllLinesUnique | lib/prom/src/prom_metric_formatter.c:231-275 | if no two metrics have lines of the same name, all lines of a scrape differ if and only if those of each metric do |
| Uniqueness.CountNameCollides | lib/prom/src/prom_collector.c:111-120 | a histogram x and a metric x_count with the same labels print a line of the same identity |
| Uniqueness.SameNameCollides | lib/prom/src/prom_collector.c:111-120 | metrics of one name in two collectors print a line of the same identity |
| CpuUsage.CpuMonitor.GetCpuUsage | src/metrics.c:51-118 | the 64-bit computation gives the percentage of the differences, or -1; the remembered reading changes exactly on success |
| CpuUsage.DeltasByCounter | src/metrics.c:85-98 | the differences as those of the eight counters and of idle and iowait, modulo 2^64 |
| CpuUsage.PercentageExactly | src/metrics.c:95-105 | a successful result times the total difference is 100 times the total less the idle difference, and is at most 100 if and only if the idle difference is at most the total difference |
| CpuUsage.BusyShare | src/metrics.c:85-105 | with growing counters the result times the growth of all eight is 100 times the growth of the six that are not idle time, 50 if that is half, and -1 without growth |
| CpuUsage.IdleLowers | src/metrics.c:85-105 | more idle time alone lowers a positive result |
| CpuUsage.BackwardsCounter | src/metrics.c:95-105 | a counter that runs backwards gives 200 |
| CpuUsage.ResultsTelescope | src/metrics.c:85-117 | with growing counters every result is a percentage and the weighted results add up to 100 times the six busy counters of the last success |

## Left out

- StringBuilders.StringBuilder.EnsureSpace: doubles an unbounded number, so text lengths near 2^63 bytes need no precondition; when the `size_t` loop does the same is stated by GrowthTerminates.
- Maps.PromMap.EnsureSpace: the loops count without the limit of an `int`; until when they do the same is stated by Tables.LoopsFitInt.
- Exposition.LoadMetrics: without concurrent changes to the registry, and only for the default collect function; what the clock says are parameters.
- `prom_map_delete`: it hands list nodes to a comparator for map nodes, and nothing in the library calls it.
- Allocation failures, lock errors and freeing of memory, including the freed key strings that the key list still points at after an overwrite; keys are compared by content.
- NULL arguments where a function only returns an error code for them.
- Rounding of doubles, NaN, signed zeros, and the digits that `"%.17g"` prints.
- Scraping a metric while another thread adds label values to it.
- The rest of the registry, the other thin counter and gauge wrappers, HTTP, logging, the process collectors, and the other readings of `src/metrics.c`: input, output and easy members.
