/**
 * The text exposition (app/server.js `renderMetrics`, lines 130-176): for each
 * definition in catalog order a `# HELP` and a `# TYPE` header, then one sample
 * line per series, histograms as cumulative `_bucket` lines then `_sum` and
 * `_count`. The process uptime and memory lines are a parameter, and numbers
 * are written by a `show` parameter that stands for JavaScript's number-to-string.
 */
module Exposition {
  import opened Strings
  import opened Labels
  import opened Metrics

  function HelpLine(name: string, help: string): string
  {
    "# HELP " + name + " " + help
  }

  function TypeLine(name: string, kind: string): string
  {
    "# TYPE " + name + " " + kind
  }

  function SampleLine(name: string, labels: LabelSet, value: string): string
  {
    name + FormatLabels(labels) + " " + value
  }

  /** The `le` label of slot `idx`: its bound, or `+Inf` past the last bound. */
  function LeValue(buckets: seq<real>, idx: nat, show: real -> string): string
  {
    if idx < |buckets| then show(buckets[idx]) else "+Inf"
  }

  /** A `_bucket` line: the entry's labels with `le` merged in as `{...labels, le}` does. */
  function BucketLine(name: string, labels: LabelSet, le: string, value: string): string
  {
    SampleLine(name + "_bucket", WithLabel(labels, "le", le), value)
  }

  /** The entries of a series in first-touch order: `store.values()`. */
  function Values<E>(s: Series<E>): seq<E>
    requires Covered(s)
  {
    seq(|s.order|, i requires 0 <= i < |s.order| && s.order[i] in s.entries => s.entries[s.order[i]])
  }

  /** The sample lines of counter or gauge entries. */
  function ScalarLines(name: string, entries: seq<ScalarEntry>, show: real -> string): seq<string>
  {
    if entries == [] then []
    else
      var e := entries[|entries| - 1];
      ScalarLines(name, entries[..|entries| - 1], show) + [SampleLine(name, e.labels, show(e.value))]
  }

  /** The `_bucket` lines of the slots `counts`: the line of slot `i` carries the total of
      slots `0..i`. */
  function BucketLines(name: string, labels: LabelSet, buckets: seq<real>, counts: seq<nat>, show: real -> string)
    : seq<string>
  {
    if counts == [] then []
    else
      BucketLines(name, labels, buckets, counts[..|counts| - 1], show)
      + [BucketLine(name, labels, LeValue(buckets, |counts| - 1, show), show(Sum(counts) as real))]
  }

  /** All lines of one histogram entry. */
  function HistogramEntryLines(name: string, e: HistogramEntry, buckets: seq<real>, show: real -> string)
    : seq<string>
  {
    BucketLines(name, e.labels, buckets, e.bucketCounts, show)
    + [SampleLine(name + "_sum", e.labels, show(e.sum)),
       SampleLine(name + "_count", e.labels, show(e.count as real))]
  }

  function HistogramLines(name: string, entries: seq<HistogramEntry>, buckets: seq<real>, show: real -> string)
    : seq<string>
  {
    if entries == [] then []
    else
      HistogramLines(name, entries[..|entries| - 1], buckets, show)
      + HistogramEntryLines(name, entries[|entries| - 1], buckets, show)
  }

  /** `name` is defined and each of its series can be walked. */
  ghost predicate Renders(snap: Snapshot, name: string)
  {
    && name in snap.definitions
    && Covered(SeriesOf(snap.counters, name))
    && Covered(SeriesOf(snap.gauges, name))
    && Covered(SeriesOf(snap.histograms, name))
  }

  /** The sample lines of one definition: only the store of its own type is read. */
  function SeriesLines(snap: Snapshot, name: string, show: real -> string): seq<string>
    requires Renders(snap, name)
  {
    var d := snap.definitions[name];
    if d.kind == COUNTER then ScalarLines(name, Values(SeriesOf(snap.counters, name)), show)
    else if d.kind == GAUGE then ScalarLines(name, Values(SeriesOf(snap.gauges, name)), show)
    else if d.kind == HISTOGRAM then HistogramLines(name, Values(SeriesOf(snap.histograms, name)), d.buckets, show)
    else []
  }

  /** One metric family: its two headers, then its series. */
  function FamilyLines(snap: Snapshot, name: string, show: real -> string): seq<string>
    requires Renders(snap, name)
  {
    var d := snap.definitions[name];
    [HelpLine(name, d.help), TypeLine(name, d.kind)] + SeriesLines(snap, name, show)
  }

  /** The families of `names`, in that order. */
  function Lines(snap: Snapshot, names: seq<string>, show: real -> string): seq<string>
    requires forall n :: n in names ==> Renders(snap, n)
  {
    if names == [] then []
    else Lines(snap, names[..|names| - 1], show) + FamilyLines(snap, names[|names| - 1], show)
  }

  /** The document `renderMetrics` returns: the registry's lines, then the process lines,
      joined with and ended by a newline. */
  function Render(snap: Snapshot, show: real -> string, processLines: seq<string>): (text: string)
    requires forall n :: n in snap.order ==> Renders(snap, n)
    ensures |text| > 0 && text[|text| - 1] == '\n'
  {
    Join("\n", Lines(snap, snap.order, show) + processLines) + "\n"
  }

  lemma ValidRenders(snap: Snapshot)
    requires SnapshotValid(snap)
    ensures forall n :: n in snap.order ==> Renders(snap, n)
  {
  }

  /** One `_bucket` line per slot. */
  lemma {:induction false} BucketLinesLength(name: string, labels: LabelSet, buckets: seq<real>, counts: seq<nat>,
                                             show: real -> string)
    ensures |BucketLines(name, labels, buckets, counts, show)| == |counts|
  {
    if counts != [] {
      BucketLinesLength(name, labels, buckets, counts[..|counts| - 1], show);
    }
  }

  /** The `_bucket` lines of the first `k` slots begin the `_bucket` lines of all slots. */
  lemma {:induction false} BucketLinesPrefix(name: string, labels: LabelSet, buckets: seq<real>, counts: seq<nat>,
                                             show: real -> string, k: nat)
    requires k <= |counts|
    ensures BucketLines(name, labels, buckets, counts[..k], show) <= BucketLines(name, labels, buckets, counts, show)
  {
    if k < |counts| {
      var init := counts[..|counts| - 1];
      BucketLinesPrefix(name, labels, buckets, init, show, k);
      assert init[..k] == counts[..k];
    } else {
      assert counts[..k] == counts;
    }
  }

  /** The `_bucket` lines: slot `i` is labelled with its bound (`+Inf` past the last one)
      and carries the running total of slots `0..i`. */
  lemma BucketLinesAt(name: string, labels: LabelSet, buckets: seq<real>, counts: seq<nat>,
                      show: real -> string, i: nat)
    requires i < |counts|
    ensures |BucketLines(name, labels, buckets, counts, show)| == |counts|
    ensures BucketLines(name, labels, buckets, counts, show)[i] ==
              BucketLine(name, labels, LeValue(buckets, i, show), show(Sum(counts[..i + 1]) as real))
  {
    var upTo := counts[..i + 1];
    BucketLinesLength(name, labels, buckets, counts, show);
    BucketLinesLength(name, labels, buckets, upTo[..i], show);
    BucketLinesPrefix(name, labels, buckets, counts, show, i + 1);
  }

  /** One sample line per counter or gauge entry. */
  lemma {:induction false} ScalarLinesLength(name: string, entries: seq<ScalarEntry>, show: real -> string)
    ensures |ScalarLines(name, entries, show)| == |entries|
  {
    if entries != [] {
      ScalarLinesLength(name, entries[..|entries| - 1], show);
    }
  }

  /** The sample lines of the first `k` entries begin the sample lines of all entries. */
  lemma {:induction false} ScalarLinesPrefix(name: string, entries: seq<ScalarEntry>, show: real -> string, k: nat)
    requires k <= |entries|
    ensures ScalarLines(name, entries[..k], show) <= ScalarLines(name, entries, show)
  {
    if k < |entries| {
      var init := entries[..|entries| - 1];
      ScalarLinesPrefix(name, init, show, k);
      assert init[..k] == entries[..k];
    } else {
      assert entries[..k] == entries;
    }
  }

  /** Line `i` of the sample lines is the line of entry `i`, in the order of the entries. */
  lemma ScalarLinesAt(name: string, entries: seq<ScalarEntry>, show: real -> string, i: nat)
    requires i < |entries|
    ensures |ScalarLines(name, entries, show)| == |entries|
    ensures ScalarLines(name, entries, show)[i] == SampleLine(name, entries[i].labels, show(entries[i].value))
  {
    var upTo := entries[..i + 1];
    ScalarLinesLength(name, entries, show);
    ScalarLinesLength(name, upTo[..i], show);
    ScalarLinesPrefix(name, entries, show, i + 1);
  }

  /** The running totals never decrease from one slot to a later one. */
  lemma {:induction false} RunningTotalsNondecreasing(counts: seq<nat>, i: nat, j: nat)
    requires i <= j <= |counts|
    ensures Sum(counts[..i]) <= Sum(counts[..j])
  {
    if i < j {
      RunningTotalsNondecreasing(counts, i, j - 1);
      assert counts[..j][..j - 1] == counts[..j - 1];
    }
  }

  /** For a valid entry the last `_bucket` line is the `+Inf` one and carries `count`,
      the same number the closing `_count` line carries. */
  lemma LastBucketIsCount(name: string, e: HistogramEntry, buckets: seq<real>, show: real -> string)
    requires HistogramValid(e, buckets)
    ensures var lines := HistogramEntryLines(name, e, buckets, show);
            && |lines| == |buckets| + 3
            && lines[|buckets|] == BucketLine(name, e.labels, "+Inf", show(e.count as real))
            && lines[|buckets| + 2] == SampleLine(name + "_count", e.labels, show(e.count as real))
  {
    BucketLinesAt(name, e.labels, buckets, e.bucketCounts, show, |buckets|);
    assert e.bucketCounts[..|buckets| + 1] == e.bucketCounts;
  }

  lemma {:induction false} LinesPrefix(snap: Snapshot, names: seq<string>, k: nat, show: real -> string)
    requires forall n :: n in names ==> Renders(snap, n)
    requires k <= |names|
    ensures Lines(snap, names[..k], show) <= Lines(snap, names, show)
  {
    if k < |names| {
      var init := names[..|names| - 1];
      LinesPrefix(snap, init, k, show);
      assert init[..k] == names[..k];
    } else {
      assert names[..k] == names;
    }
  }

  /** Family `k` of the catalog starts where the families before it end, with its
      `# HELP` line and then its `# TYPE` line. */
  lemma FamilyHeaderAt(snap: Snapshot, show: real -> string, k: nat)
    requires forall n :: n in snap.order ==> Renders(snap, n)
    requires k < |snap.order|
    ensures snap.order[k] in snap.definitions
    ensures var out := Lines(snap, snap.order, show);
            var at := |Lines(snap, snap.order[..k], show)|;
            var d := snap.definitions[snap.order[k]];
            && at + 1 < |out|
            && out[at] == HelpLine(snap.order[k], d.help)
            && out[at + 1] == TypeLine(snap.order[k], d.kind)
  {
    assert snap.order[k] in snap.order;
    LinesPrefix(snap, snap.order, k + 1, show);
    assert snap.order[..k + 1][..k] == snap.order[..k];
  }

  /** Families come out in catalog order: the lines up to and including family `i`
      (whose block holds at least its two headers) begin the lines before family `j`,
      so family `i`'s block ends before family `j`'s begins. */
  lemma FamiliesInCatalogOrder(snap: Snapshot, show: real -> string, i: nat, j: nat)
    requires forall n :: n in snap.order ==> Renders(snap, n)
    requires i < j <= |snap.order|
    ensures Lines(snap, snap.order[..i + 1], show) <= Lines(snap, snap.order[..j], show)
    ensures |Lines(snap, snap.order[..i], show)| + 2 <= |Lines(snap, snap.order[..i + 1], show)|
  {
    var upto := snap.order[..j];
    LinesPrefix(snap, upto, i + 1, show);
    assert upto[..i + 1] == snap.order[..i + 1];
    assert snap.order[..i + 1][..i] == snap.order[..i];
  }

  /** A family reads only the catalog and its own name's series. */
  lemma SameFamily(snap: Snapshot, alt: Snapshot, name: string, show: real -> string)
    requires Renders(snap, name)
    requires alt.definitions == snap.definitions
    requires SeriesOf(alt.counters, name) == SeriesOf(snap.counters, name)
    requires SeriesOf(alt.gauges, name) == SeriesOf(snap.gauges, name)
    requires SeriesOf(alt.histograms, name) == SeriesOf(snap.histograms, name)
    ensures Renders(alt, name)
    ensures FamilyLines(alt, name, show) == FamilyLines(snap, name, show)
  {
  }

  lemma {:induction false} UndefinedSeriesIgnored(snap: Snapshot, alt: Snapshot, names: seq<string>, show: real -> string)
    requires forall n :: n in names ==> Renders(snap, n)
    requires alt.definitions == snap.definitions
    requires forall n :: n in names ==> SeriesOf(alt.counters, n) == SeriesOf(snap.counters, n)
    requires forall n :: n in names ==> SeriesOf(alt.gauges, n) == SeriesOf(snap.gauges, n)
    requires forall n :: n in names ==> SeriesOf(alt.histograms, n) == SeriesOf(snap.histograms, n)
    ensures forall n :: n in names ==> Renders(alt, n)
    ensures Lines(alt, names, show) == Lines(snap, names, show)
  {
    if names != [] {
      var last := names[|names| - 1];
      assert last in names;
      SameFamily(snap, alt, last, show);
      UndefinedSeriesIgnored(snap, alt, names[..|names| - 1], show);
    }
  }

  /** Counter and gauge series under a name that was never defined are kept but never
      rendered: replacing them leaves the document unchanged. */
  lemma UndefinedNotRendered(snap: Snapshot, name: string, counters: Series<ScalarEntry>, gauges: Series<ScalarEntry>,
                             show: real -> string, processLines: seq<string>)
    requires forall n :: n in snap.order ==> Renders(snap, n)
    requires name !in snap.definitions
    ensures var alt := snap.(counters := snap.counters[name := counters], gauges := snap.gauges[name := gauges]);
            && (forall n :: n in alt.order ==> Renders(alt, n))
            && Render(alt, show, processLines) == Render(snap, show, processLines)
  {
    var alt := snap.(counters := snap.counters[name := counters], gauges := snap.gauges[name := gauges]);
    UndefinedSeriesIgnored(snap, alt, snap.order, show);
  }

  /** The sample lines of one counter or gauge store, walked in first-touch order. */
  method RenderScalarSeries(name: string, store: Series<ScalarEntry>, show: real -> string)
    returns (out: seq<string>)
    requires Covered(store)
    ensures out == ScalarLines(name, Values(store), show)
  {
    out := [];
    var values := Values(store);
    for j := 0 to |values|
      invariant out == ScalarLines(name, values[..j], show)
    {
      var entry := values[j];
      var line := SampleLine(name, entry.labels, show(entry.value));
      assert values[..j + 1][..j] == values[..j];
      out := out + [line];
    }
    assert values[..|values|] == values;
  }

  /** The `_bucket` lines of one entry, keeping a running total over its slots. */
  method RenderBuckets(name: string, labels: LabelSet, buckets: seq<real>, counts: seq<nat>, show: real -> string)
    returns (out: seq<string>)
    ensures out == BucketLines(name, labels, buckets, counts, show)
  {
    out := [];
    var cumulative: nat := 0;
    for idx := 0 to |counts|
      invariant cumulative == Sum(counts[..idx])
      invariant out == BucketLines(name, labels, buckets, counts[..idx], show)
    {
      assert counts[..idx + 1][..idx] == counts[..idx];
      cumulative := cumulative + counts[idx];
      assert cumulative == Sum(counts[..idx + 1]);
      var le := if idx < |buckets| then show(buckets[idx]) else "+Inf";
      assert le == LeValue(buckets, idx, show);
      var line := BucketLine(name, labels, le, show(cumulative as real));
      assert BucketLines(name, labels, buckets, counts[..idx + 1], show)
        == BucketLines(name, labels, buckets, counts[..idx], show) + [line];
      out := out + [line];
    }
    assert counts[..|counts|] == counts;
  }

  /** The lines of one histogram entry: its `_bucket` lines, then `_sum` and `_count`. */
  method RenderHistogramEntry(name: string, entry: HistogramEntry, buckets: seq<real>, show: real -> string)
    returns (out: seq<string>)
    ensures out == HistogramEntryLines(name, entry, buckets, show)
  {
    out := RenderBuckets(name, entry.labels, buckets, entry.bucketCounts, show);
    out := out + [SampleLine(name + "_sum", entry.labels, show(entry.sum))];
    out := out + [SampleLine(name + "_count", entry.labels, show(entry.count as real))];
  }

  /** The lines of histogram entries, entry by entry. */
  method RenderHistogramEntries(name: string, entries: seq<HistogramEntry>, buckets: seq<real>, show: real -> string)
    returns (out: seq<string>)
    ensures out == HistogramLines(name, entries, buckets, show)
  {
    out := [];
    for j := 0 to |entries|
      invariant out == HistogramLines(name, entries[..j], buckets, show)
    {
      var entryLines := RenderHistogramEntry(name, entries[j], buckets, show);
      assert entries[..j + 1][..j] == entries[..j];
      out := out + entryLines;
    }
    assert entries[..|entries|] == entries;
  }

  /** The lines of one histogram store in first-touch order: `store.values()`. */
  method RenderHistogramSeries(name: string, store: Series<HistogramEntry>, buckets: seq<real>, show: real -> string)
    returns (out: seq<string>)
    requires Covered(store)
    ensures out == HistogramLines(name, Values(store), buckets, show)
  {
    out := RenderHistogramEntries(name, Values(store), buckets, show);
  }

  /** One pass of the loop in `renderMetrics`: the two headers, then the store of the
      definition's own type. */
  method RenderFamily(snap: Snapshot, name: string, show: real -> string) returns (out: seq<string>)
    requires Renders(snap, name)
    ensures out == FamilyLines(snap, name, show)
  {
    var definition := snap.definitions[name];
    out := [HelpLine(name, definition.help), TypeLine(name, definition.kind)];
    var series: seq<string> := [];
    if definition.kind == COUNTER {
      series := RenderScalarSeries(name, SeriesOf(snap.counters, name), show);
    } else if definition.kind == GAUGE {
      series := RenderScalarSeries(name, SeriesOf(snap.gauges, name), show);
    } else if definition.kind == HISTOGRAM {
      series := RenderHistogramSeries(name, SeriesOf(snap.histograms, name), definition.buckets, show);
    }
    out := out + series;
  }
}
