# Metrics registry of app/server.js

This project models the in-process metrics registry of the service in
`app/server.js`, lines 10-176, and proves properties of the model. The
registry consists of:

- a catalog of metric definitions;
- three stores, for counters, gauges and histograms, each mapping a metric
  name to its series;
- the operations that define metrics, write samples and render the text
  exposition format.

Modules, one per concern of the source:

- `Strings` (`strings.dfy`): JavaScript's default string order, as used by
  `Array.prototype.sort` without a comparator; the sort of a key list; and
  `Array.prototype.join`.
- `Labels` (`labels.dfy`): a label object as the list of its own keys with
  their values, each key once, in the order the object was built, plus `normaliseLabels`, `labelKey`,
  `formatLabels` and the `{ ...labels, le }` merge.
- `Metrics` (`metrics.dfy`): definitions, entries and series. A series is
  an inner `Map`, so it keeps its keys in first-insertion order. It also
  holds `getStore`, what each write does to one series, and the registry
  invariant over a `Snapshot` of the whole registry.
- `Exposition` (`exposition.dfy`): the document `renderMetrics` produces,
  as functions; the loops that build it, as methods proved against those
  functions; and the properties of the document.
- `MetricRegistry` (`registry.dfy`): the four module-level maps become
  fields of a class `Registry`. Every operation of the source becomes a
  method that updates those fields in place. Each method keeps the
  registry invariant and states its new state through the functions of
  `Metrics`.

The registry invariant:

- the catalog order lists every defined name exactly once;
- every series lists each key once, in first-touch order;
- every entry is filed under the key of its own labels, and those labels
  are normalised;
- a histogram series exists only for a defined name, and each of its
  entries has one slot per bound plus an overflow slot, with
  `count == Σ bucketCounts`.

Three behaviours of the code are worth stating plainly:

- **Label keys can collide.** `labelKey` joins `name:value` pairs with `|`
  and escapes nothing, so `{a: "b|c:d"}` and `{a: "b", c: "d"}` get the
  same key and share one entry (`Labels.LabelKeyCollides`).
- **Counters and gauges need no definition.** `incCounter`, `setGauge`,
  `incGauge` and `decGauge` create the series and the entry on first touch
  without consulting the catalog. Only `observeHistogram` fails for an
  undefined name. Counter and gauge series of undefined names are kept but
  never rendered (`Exposition.UndefinedNotRendered`).
- **Histogram bounds need not be ascending.** Nothing checks their order;
  an observation lands in the first slot whose bound is at least the
  value, whatever the order (`Metrics.BucketIndex`).

## Model

| member | source | states |
|---|---|---|
| Strings.LexLeTotal | app/server.js:16 | any two strings are comparable in the default sort order |
| Strings.LexLeAntisymmetric | app/server.js:16 | two strings that each sort no later than the other are equal |
| Strings.LexLeTransitive | app/server.js:16 | the default sort order is transitive |
| Strings.Sort | app/server.js:16 | `keys.sort()`: the result is in ascending string order, is a permutation of the input, and has no repeats when the input has none |
| Strings.SortDependsOnlyOnElements | app/server.js:25 | two key lists with the same elements sort to the same list, whatever their original order |
| Strings.SortedUnique | app/server.js:25 | two sorted lists holding the same elements are equal, so the sorted key list is determined by the set of keys |
| Strings.JoinEnds | app/server.js:26 | `join` (also at lines 37 and 175) gives the empty string for no parts, and otherwise text that starts with the first part and ends with the last |
| Labels.SortedNames | app/server.js:25 | `Object.keys(labels).sort()` lists each key of the label object once, and nothing else |
| Labels.SortedNamesAscending | app/server.js:25 | the sorted names are in ascending order |
| Labels.LabelKey | app/server.js:24-27 | the key is empty exactly for an object without labels, and otherwise starts with the smallest label name followed by `:` |
| Labels.Normalise | app/server.js:15-22 | `normaliseLabels` keeps the mapping from names to values and puts the names in ascending order |
| Labels.OrderIndependent | app/server.js:15-38 | two label objects with the same mapping get the same `labelKey`, the same `formatLabels` text and the same normal form, whatever their key insertion order |
| Labels.NormalisePreservesIdentity | app/server.js:15-27 | normalised labels keep their key and rendering, and normalising is idempotent |
| Labels.KeyOfTwo | app/server.js:24-27 | `labelKey({a: "b", c: "d"})` is the pairs `a:b` and `c:d` joined by a bar, in name order |
| Labels.LabelKeyCollides | app/server.js:26 | two label objects with different mappings can share one key, because values are not escaped |
| Labels.Escape | app/server.js:36 | every `"` of the escaped value is preceded by a backslash, and a value without quotes is left as it is |
| Labels.EscapeRoundTrip | app/server.js:36 | the model's own reader `Unescape`, which turns `\"` back into `"` and nothing else, recovers the label value; it is not the exposition format's reader, which also decodes `\\` and `\n` |
| Labels.BackslashNotEscaped | app/server.js:36 | backslashes are not escaped: a value ending in `\` renders with that backslash right before the closing quote |
| Labels.FormatLabels | app/server.js:29-38 | `formatLabels` gives the empty string exactly for an object without labels, and otherwise a `{...}` fragment |
| Labels.FormatOne | app/server.js:29-38 | a single label renders as `{name="escaped value"}` |
| Labels.WithLabel | app/server.js:155 | `{ ...labels, le }` maps `le` to the new value and keeps every other label; an existing `le` is overwritten |
| Metrics.GetStore | app/server.js:40-45 | afterwards the name has a series; an existing series and every other name's series are left as they were; a new series is empty |
| Metrics.Touch | app/server.js:63-66 | the entry under the key is created with the initial value only when missing; no existing entry changes; the key goes to the end of the iteration order |
| Metrics.SeriesOfValid | app/server.js:148 | the lookup that falls back to an empty `Map` (also at lines 138 and 143) gives a well-formed series, filed under label keys and, for a histogram, matching its bounds |
| Metrics.NewScalarEntry | app/server.js:64 | a new counter or gauge entry holds value 0 and normalised labels with the same mapping, filed under the labels' key |
| Metrics.WithValue | app/server.js:102-105 | `setGauge` on one series: only the labels' entry changes, and it holds the new value; a new entry gets normalised labels |
| Metrics.Incremented | app/server.js:97-100 | `incCounter` (and `incGauge`, lines 107-110) on one series: only the labels' entry changes, and it holds its old value (0 on first touch) plus the delta; it keeps its labels, or gets the normalised labels when it is new |
| Metrics.Bump | app/server.js:99 | `entry.value += value` (also line 109) keeps the labels and moves the value by exactly the delta |
| Metrics.Drop | app/server.js:114 | the labels stay; the value drops by the delta when it can, and is 0 otherwise, never negative |
| Metrics.FloorAtZero | app/server.js:114 | `Math.max(0, x)` is never negative and is `x` whenever `x` is not negative |
| Metrics.Decremented | app/server.js:112-115 | `decGauge` on one series: only the labels' entry changes; it holds old value minus delta when that is not negative, and 0 otherwise; it keeps its labels, or gets the normalised labels when it is new |
| Metrics.SumIncrement | app/server.js:125-127 | adding one to a single slot adds one to the slot total |
| Metrics.FindIndex | app/server.js:121 | `findIndex`: -1 when no bound is at least the value, otherwise the first such bound's index, with every earlier bound below the value |
| Metrics.BucketIndex | app/server.js:121-124 | the slot an observation lands in is the first bound at or above the value, or the overflow slot `buckets.length` |
| Metrics.NewHistogramEntry | app/server.js:85-93 | a new histogram entry has `buckets.length + 1` zero slots, sum 0, count 0 and normalised labels filed under the labels' key |
| Metrics.Observe | app/server.js:125-127 | exactly the chosen slot gains one; sum gains the value; count gains one; `count == Σ bucketCounts` and the slot count are preserved |
| Metrics.ObserveIn | app/server.js:117-128 | `observeHistogram` on one series: only the labels' entry changes, and it is the old entry (or a fresh zero entry) with the observation applied; the series stays valid |
| Metrics.DefinitionAdded | app/server.js:48-50 | appending a new name to the catalog keeps the registry invariant |
| Exposition.Render | app/server.js:175 | the document is never empty and ends with a newline |
| Exposition.ScalarLinesLength | app/server.js:139-141 | one sample line per counter or gauge entry |
| Exposition.ScalarLinesPrefix | app/server.js:139-141 | the sample lines of the first entries begin the sample lines of all entries |
| Exposition.ScalarLinesAt | app/server.js:139-141 | one sample line per counter or gauge entry, line `i` carrying entry `i`'s labels and value |
| Exposition.BucketLinesLength | app/server.js:152-157 | one `_bucket` line per slot |
| Exposition.BucketLinesPrefix | app/server.js:151-157 | the `_bucket` lines of the first slots begin the `_bucket` lines of all slots |
| Exposition.BucketLinesAt | app/server.js:151-157 | `_bucket` line `i` is labelled with bound `i` (`+Inf` past the last bound) and carries the running total of slots `0..i` |
| Exposition.RunningTotalsNondecreasing | app/server.js:151-153 | the running totals on the `_bucket` lines never decrease |
| Exposition.LastBucketIsCount | app/server.js:150-159 | for a valid entry the `+Inf` bucket line carries `count`, the same number as the closing `_count` line |
| Exposition.LinesPrefix | app/server.js:133-162 | the lines of the first definitions begin the lines of all definitions |
| Exposition.FamilyHeaderAt | app/server.js:133-135 | each defined metric's block starts with its `# HELP` line, followed by its `# TYPE` line |
| Exposition.FamiliesInCatalogOrder | app/server.js:133 | blocks come out in definition order: the lines up to the end of definition `i`'s block, which holds at least its two headers, begin the lines before definition `j`'s block, for every `i < j` |
| Exposition.UndefinedNotRendered | app/server.js:133-161 | counter and gauge series under a name that was never defined do not affect the document |
| Exposition.SameFamily | app/server.js:137-161 | a definition's block depends only on the catalog and on that name's series |
| Exposition.RenderScalarSeries | app/server.js:138-141 | the loop emits one sample line per counter or gauge entry, in first-touch order |
| Exposition.RenderBuckets | app/server.js:151-157 | the loop with its running total emits exactly the entry's `_bucket` lines |
| Exposition.RenderHistogramEntry | app/server.js:151-159 | an entry's lines are its `_bucket` lines, then `_sum`, then `_count` |
| Exposition.RenderHistogramEntries | app/server.js:150-160 | the loop emits every entry's lines, entry after entry |
| Exposition.RenderHistogramSeries | app/server.js:148-160 | a histogram store's lines are its entries' lines in first-touch order |
| Exposition.RenderFamily | app/server.js:134-161 | one pass of the catalog loop emits the two headers, then the lines of the store of the definition's own type |
| MetricRegistry.Registry.constructor | app/server.js:10-13 | the registry starts with an empty catalog and empty stores, and satisfies the invariant |
| MetricRegistry.Registry.DefineMetric | app/server.js:47-58 | the first definition of a name wins; a new name goes to the end of the catalog order; the store of the given type is created if missing, even on a repeated definition |
| MetricRegistry.Registry.GetCounterEntry | app/server.js:60-67 | without consulting the catalog, the counter series and the labels' entry are touched and the entry's key is returned; nothing else changes |
| MetricRegistry.Registry.GetGaugeEntry | app/server.js:69-76 | as `getCounterEntry`, on the gauge store |
| MetricRegistry.Registry.GetHistogramEntry | app/server.js:78-95 | an undefined name fails with `NotDefined` and changes nothing; otherwise the series and the labels' entry are touched, with slots sized by the definition's bounds |
| MetricRegistry.Registry.IncCounter | app/server.js:97-100 | exactly the counter store changes, to `Incremented` of the old series |
| MetricRegistry.Registry.SetGauge | app/server.js:102-105 | exactly the gauge store changes, to `WithValue` of the old series |
| MetricRegistry.Registry.IncGauge | app/server.js:107-110 | exactly the gauge store changes, to `Incremented` of the old series, with no bound |
| MetricRegistry.Registry.DecGauge | app/server.js:112-115 | exactly the gauge store changes, to `Decremented` of the old series, which floors at 0 |
| MetricRegistry.Registry.ObserveHistogram | app/server.js:117-128 | an undefined name fails and leaves the registry untouched; otherwise exactly the histogram store changes, to `ObserveIn` of the old series under the definition's bounds |
| MetricRegistry.Registry.RenderMetrics | app/server.js:130-176 | changes nothing, and returns `Render` of the registry: catalog-ordered families followed by the process lines, joined and ended by newlines |

## Left out

- HTTP plumbing is not modelled: Express, the routes that call the registry, the `/metrics` content type and the `/load` busy loop. The model covers only the registry functions.
- Process metrics are not modelled: `process.uptime()` and `process.memoryUsage()` (lines 164-173) are I/O. They become the `processLines` parameter of `RenderMetrics`.
- Number formatting is not modelled: JavaScript's number-to-string conversion is the `show` parameter. Values, sums and bounds are exact `real`s, not IEEE doubles, so rounding, `NaN` and infinities are not modelled.
- Non-string label values are not modelled: label values are strings, and the `String(...)` conversion of other values in `labelKey` and `formatLabels` is left out.
- Sort order is by character code in Dafny's `char`. JavaScript compares UTF-16 code units, and the two orders differ only for characters outside the Basic Multilingual Plane.
- Default arguments (`labels = {}`, `value = 1`, `options = {}`) are not modelled: callers pass every argument explicitly. A definition's `options` is reduced to its `buckets`, which is the only option read.
- Entry aliasing is not modelled: entries are stored by value. The source mutates the entry object that `getStore(...).get(key)` returns; those references never leave the module, so updating the map is equivalent.
- Concurrency is not modelled: Node.js runs these functions to completion one at a time.
- Key order inside a label object is not modelled exactly: a label object is the list of its keys in the order it was built. JavaScript's `Object.keys` lists integer-like keys first, in numeric order, so `normaliseLabels({"10": …, "9": …})` lists `9` before `10`, where the model lists `10` first. Every consumer sorts the keys again, so no key or rendered line differs.
- Only `"` is escaped in label values, exactly as the code does; backslashes and newlines are copied as they are (`Labels.BackslashNotEscaped`). A value ending in `\` therefore renders as `{k="a\"}`, which a reader of the exposition format sees as an unterminated value. `Labels.Unescape` undoes only the escaping the code performs; it is not the format's reader.
