/**
 * The data of the registry (app/server.js lines 10-13 and 40-128): metric
 * definitions, the per-metric series stores and their entries, and what one
 * write does to one series.
 */
module Metrics {
  import opened Strings
  import opened Labels

  const COUNTER := "counter"
  const GAUGE := "gauge"
  const HISTOGRAM := "histogram"

  /** A catalog entry `{ type, help, options }`. Of the options only `buckets` is ever
      read, always as `options.buckets || []`, so a missing list is the empty list. */
  datatype Definition = Definition(kind: string, help: string, buckets: seq<real>)

  /** A counter or gauge series: `{ labels, value }`. */
  datatype ScalarEntry = ScalarEntry(labels: LabelSet, value: real)

  /** A histogram series: `{ labels, bucketCounts, sum, count }`. */
  datatype HistogramEntry = HistogramEntry(labels: LabelSet, bucketCounts: seq<nat>, sum: real, count: nat)

  /** The inner `Map` of one metric: entries by label key, and the keys in the order
      they were first set, which is the order `store.values()` walks them in. */
  datatype Series<E> = Series(order: seq<string>, entries: map<string, E>)

  /** The `Error` thrown for a histogram that was never defined. */
  datatype MetricError = NotDefined(name: string)

  datatype Result<T> = Ok(value: T) | Err(error: MetricError)

  datatype Outcome = Pass | Fail(error: MetricError)

  /** The order lists every key once, and nothing else. */
  ghost predicate SeriesValid<E>(s: Series<E>)
  {
    Distinct(s.order) && forall k :: k in s.entries <==> k in s.order
  }

  /** Every key in the order has an entry: enough to walk the series. */
  ghost predicate Covered<E>(s: Series<E>)
  {
    forall k :: k in s.order ==> k in s.entries
  }

  /** `storeMap.get(name) || new Map()`. */
  function SeriesOf<E>(stores: map<string, Series<E>>, name: string): Series<E>
  {
    if name in stores then stores[name] else Series([], map[])
  }

  /** `getStore`: afterwards `name` has a series; an existing one is left as it was. */
  function GetStore<E>(stores: map<string, Series<E>>, name: string): (r: map<string, Series<E>>)
    ensures r.Keys == stores.Keys + {name}
    ensures forall n :: n in stores ==> r[n] == stores[n]
    ensures name !in stores ==> r[name].order == [] && r[name].entries == map[]
  {
    if name in stores then stores else stores[name := Series([], map[])]
  }

  lemma UpdateTwice<E>(stores: map<string, Series<E>>, name: string, a: Series<E>, b: Series<E>)
    ensures stores[name := a][name := b] == stores[name := b]
  {
  }

  lemma GetStoreIsLookup<E>(stores: map<string, Series<E>>, name: string)
    ensures GetStore(stores, name) == stores[name := SeriesOf(stores, name)]
  {
  }

  /** `if (!store.has(key)) store.set(key, init)`: the entry is created on first touch
      only, and its key goes to the end of the iteration order. */
  function Touch<E>(s: Series<E>, key: string, init: E): (r: Series<E>)
    requires SeriesValid(s)
    ensures SeriesValid(r)
    ensures r.entries.Keys == s.entries.Keys + {key}
    ensures forall k :: k in s.entries ==> r.entries[k] == s.entries[k]
    ensures key !in s.entries ==> r.entries[key] == init
    ensures s.order <= r.order
  {
    if key in s.entries then s
    else
      var r := Series(s.order + [key], s.entries[key := init]);
      assert forall i :: 0 <= i < |s.order| ==> r.order[i] == s.order[i];
      r
  }

  /** The entry `Touch` leaves under `key`: the existing one, else `init`. */
  function Current<E>(s: Series<E>, key: string, init: E): E
  {
    if key in s.entries then s.entries[key] else init
  }

  /** `Touch` followed by a write of `e` into the entry under `key`. */
  function Written<E>(s: Series<E>, key: string, init: E, e: E): (r: Series<E>)
    requires SeriesValid(s)
    ensures SeriesValid(r)
    ensures OnlyEntryChanged(s, r, key)
    ensures key in r.entries && r.entries[key] == e
  {
    var t := Touch(s, key, init);
    var r := t.(entries := t.entries[key := e]);
    assert r.entries.Keys == t.entries.Keys;
    r
  }

  /** The series `r` differs from `s` in the entry under `key` at most: no other entry
      changes or appears, and the iteration order only grows at its end. */
  ghost predicate OnlyEntryChanged<E>(s: Series<E>, r: Series<E>, key: string)
  {
    && s.order <= r.order
    && r.entries.Keys == s.entries.Keys + {key}
    && forall k :: k in s.entries && k != key ==> r.entries[k] == s.entries[k]
  }

  /** An entry kept under `key` carries normalised labels whose key is `key`. */
  ghost predicate Filed(key: string, labels: LabelSet)
  {
    LabelKey(labels) == key && Sorted(Names(labels))
  }

  ghost predicate ScalarSeriesValid(s: Series<ScalarEntry>)
  {
    && SeriesValid(s)
    && forall k {:trigger Filed(k, s.entries[k].labels)} :: k in s.entries ==> Filed(k, s.entries[k].labels)
  }

  /** `{ labels: normaliseLabels(labels), value: 0 }`. */
  function NewScalarEntry(labels: LabelSet): (e: ScalarEntry)
    ensures Filed(LabelKey(labels), e.labels)
    ensures ToMap(e.labels) == ToMap(labels)
    ensures e.value == 0.0
  {
    NormalisePreservesIdentity(labels);
    ScalarEntry(Normalise(labels), 0.0)
  }

  /** Writing an entry filed under `key` keeps a scalar series well formed. */
  lemma ScalarWritten(s: Series<ScalarEntry>, key: string, init: ScalarEntry, e: ScalarEntry)
    requires ScalarSeriesValid(s) && Filed(key, e.labels)
    ensures ScalarSeriesValid(Written(s, key, init, e))
  {
  }

  /** The value a counter or gauge series holds under `key` before a write: 0 when the
      write is its first touch. */
  function ValueBefore(s: Series<ScalarEntry>, key: string): real
  {
    if key in s.entries then s.entries[key].value else 0.0
  }

  lemma CurrentValue(s: Series<ScalarEntry>, labels: LabelSet)
    ensures Current(s, LabelKey(labels), NewScalarEntry(labels)).value == ValueBefore(s, LabelKey(labels))
  {
  }

  /** `getCounterEntry` / `getGaugeEntry` followed by `entry.value = value`: exactly one
      entry, the one of the labels' key, ends up holding `value`; it keeps its labels,
      or gets the normalised labels when it is new. */
  function WithValue(s: Series<ScalarEntry>, labels: LabelSet, value: real): (r: Series<ScalarEntry>)
    requires ScalarSeriesValid(s)
    ensures ScalarSeriesValid(r)
    ensures OnlyEntryChanged(s, r, LabelKey(labels))
    ensures LabelKey(labels) in r.entries
    ensures r.entries[LabelKey(labels)].value == value
    ensures r.entries[LabelKey(labels)].labels ==
              if LabelKey(labels) in s.entries then s.entries[LabelKey(labels)].labels
              else Normalise(labels)
  {
    var key := LabelKey(labels);
    var entry := Current(s, key, NewScalarEntry(labels));
    ScalarWritten(s, key, NewScalarEntry(labels), entry.(value := value));
    Written(s, key, NewScalarEntry(labels), entry.(value := value))
  }

  /** `Math.max(0, x)`: never negative, and `x` itself whenever `x` is not. */
  function FloorAtZero(x: real): (r: real)
    ensures r >= 0.0 && r >= x
    ensures r == x || r == 0.0
  {
    if 0.0 < x then x else 0.0
  }

  /** `entry.value += delta`: the labels stay, the value moves by exactly `delta`. */
  function Bump(e: ScalarEntry, delta: real): (r: ScalarEntry)
    ensures r.labels == e.labels
    ensures r.value - e.value == delta
  {
    e.(value := e.value + delta)
  }

  /** `entry.value = Math.max(0, entry.value - delta)`: the labels stay, the value
      drops by `delta` but not below 0. */
  function Drop(e: ScalarEntry, delta: real): (r: ScalarEntry)
    ensures r.labels == e.labels
    ensures r.value >= 0.0
    ensures e.value >= delta ==> r.value == e.value - delta
    ensures e.value < delta ==> r.value == 0.0
  {
    e.(value := FloorAtZero(e.value - delta))
  }

  /** `incCounter` / `incGauge` on one series: the entry of the labels gains `delta`,
      starting from 0 on first touch, and no other entry changes. */
  function Incremented(s: Series<ScalarEntry>, labels: LabelSet, delta: real): (r: Series<ScalarEntry>)
    requires ScalarSeriesValid(s)
    ensures ScalarSeriesValid(r)
    ensures OnlyEntryChanged(s, r, LabelKey(labels))
    ensures LabelKey(labels) in r.entries
    ensures r.entries[LabelKey(labels)].value == ValueBefore(s, LabelKey(labels)) + delta
    ensures r.entries[LabelKey(labels)].labels ==
              if LabelKey(labels) in s.entries then s.entries[LabelKey(labels)].labels
              else Normalise(labels)
  {
    var key := LabelKey(labels);
    var entry := Current(s, key, NewScalarEntry(labels));
    CurrentValue(s, labels);
    ScalarWritten(s, key, NewScalarEntry(labels), Bump(entry, delta));
    Written(s, key, NewScalarEntry(labels), Bump(entry, delta))
  }

  /** `decGauge` on one series: the entry of the labels loses `delta` but never drops
      below 0, and no other entry changes. */
  function Decremented(s: Series<ScalarEntry>, labels: LabelSet, delta: real): (r: Series<ScalarEntry>)
    requires ScalarSeriesValid(s)
    ensures ScalarSeriesValid(r)
    ensures OnlyEntryChanged(s, r, LabelKey(labels))
    ensures LabelKey(labels) in r.entries
    ensures r.entries[LabelKey(labels)].value >= 0.0
    ensures ValueBefore(s, LabelKey(labels)) >= delta ==>
              r.entries[LabelKey(labels)].value == ValueBefore(s, LabelKey(labels)) - delta
    ensures ValueBefore(s, LabelKey(labels)) < delta ==> r.entries[LabelKey(labels)].value == 0.0
    ensures r.entries[LabelKey(labels)].labels ==
              if LabelKey(labels) in s.entries then s.entries[LabelKey(labels)].labels
              else Normalise(labels)
  {
    var key := LabelKey(labels);
    var entry := Current(s, key, NewScalarEntry(labels));
    CurrentValue(s, labels);
    ScalarWritten(s, key, NewScalarEntry(labels), Drop(entry, delta));
    Written(s, key, NewScalarEntry(labels), Drop(entry, delta))
  }

  /** The total of the raw bucket counts. */
  function Sum(c: seq<nat>): nat
  {
    if c == [] then 0 else Sum(c[..|c| - 1]) + c[|c| - 1]
  }

  lemma {:induction false} SumIncrement(c: seq<nat>, i: nat)
    requires i < |c|
    ensures Sum(c[i := c[i] + 1]) == Sum(c) + 1
  {
    var d := c[i := c[i] + 1];
    if i == |c| - 1 {
      assert d[..|d| - 1] == c[..|c| - 1];
    } else {
      assert d[..|d| - 1] == c[..|c| - 1][i := c[i] + 1];
      SumIncrement(c[..|c| - 1], i);
    }
  }

  lemma {:induction false} SumZeros(n: nat)
    ensures Sum(seq(n, _ => 0)) == 0
  {
    if n > 0 {
      assert seq(n, _ => 0)[..n - 1] == seq(n - 1, _ => 0);
      SumZeros(n - 1);
    }
  }

  /** `buckets.findIndex((bucket) => value <= bucket)`: the first bound at or above the
      value, or -1 when there is none. The bounds need not be ascending. */
  function FindIndex(buckets: seq<real>, value: real): (i: int)
    ensures -1 <= i < |buckets|
    ensures 0 <= i ==> value <= buckets[i]
    ensures forall j :: 0 <= j < |buckets| && (i == -1 || j < i) ==> buckets[j] < value
  {
    if buckets == [] then -1
    else if value <= buckets[0] then 0
    else
      var i := FindIndex(buckets[1..], value);
      if i == -1 then -1 else i + 1
  }

  /** The slot an observation lands in: the first matching bound, else the overflow
      slot `buckets.length`. */
  function BucketIndex(buckets: seq<real>, value: real): (i: nat)
    ensures i <= |buckets|
    ensures i < |buckets| ==> value <= buckets[i]
    ensures forall j :: 0 <= j < i ==> buckets[j] < value
  {
    var i := FindIndex(buckets, value);
    if i == -1 then |buckets| else i
  }

  /** The invariant of a histogram entry: one slot per bound plus the overflow slot,
      and `count` is the total of the slots. */
  ghost predicate HistogramValid(e: HistogramEntry, buckets: seq<real>)
  {
    |e.bucketCounts| == |buckets| + 1 && e.count == Sum(e.bucketCounts)
  }

  ghost predicate HistogramSeriesValid(s: Series<HistogramEntry>, buckets: seq<real>)
  {
    && SeriesValid(s)
    && (forall k {:trigger Filed(k, s.entries[k].labels)} :: k in s.entries ==> Filed(k, s.entries[k].labels))
    && (forall k :: k in s.entries ==> HistogramValid(s.entries[k], buckets))
  }

  /** Writing a valid entry filed under `key` keeps a histogram series well formed. */
  lemma HistogramWritten(s: Series<HistogramEntry>, buckets: seq<real>, key: string, init: HistogramEntry,
                         e: HistogramEntry)
    requires HistogramSeriesValid(s, buckets) && Filed(key, e.labels) && HistogramValid(e, buckets)
    ensures HistogramSeriesValid(Written(s, key, init, e), buckets)
  {
  }

  /** `{ labels: normaliseLabels(labels), bucketCounts: new Array(buckets.length + 1).fill(0),
      sum: 0, count: 0 }`. */
  function NewHistogramEntry(labels: LabelSet, buckets: seq<real>): (e: HistogramEntry)
    ensures Filed(LabelKey(labels), e.labels)
    ensures ToMap(e.labels) == ToMap(labels)
    ensures HistogramValid(e, buckets)
    ensures forall i :: 0 <= i < |e.bucketCounts| ==> e.bucketCounts[i] == 0
    ensures e.sum == 0.0 && e.count == 0
  {
    NormalisePreservesIdentity(labels);
    SumZeros(|buckets| + 1);
    HistogramEntry(Normalise(labels), seq(|buckets| + 1, _ => 0), 0.0, 0)
  }

  /** One observation on one entry: the slot `BucketIndex` picks gains one, every other
      slot is unchanged, `sum` gains the value and `count` gains one, so a valid entry
      stays valid. */
  function Observe(e: HistogramEntry, buckets: seq<real>, value: real): (r: HistogramEntry)
    requires |e.bucketCounts| == |buckets| + 1
    ensures r.labels == e.labels
    ensures |r.bucketCounts| == |e.bucketCounts|
    ensures r.bucketCounts[BucketIndex(buckets, value)] == e.bucketCounts[BucketIndex(buckets, value)] + 1
    ensures forall j :: 0 <= j < |e.bucketCounts| && j != BucketIndex(buckets, value) ==>
              r.bucketCounts[j] == e.bucketCounts[j]
    ensures r.sum == e.sum + value && r.count == e.count + 1
    ensures Sum(r.bucketCounts) == Sum(e.bucketCounts) + 1
    ensures HistogramValid(e, buckets) ==> HistogramValid(r, buckets)
  {
    var i := BucketIndex(buckets, value);
    SumIncrement(e.bucketCounts, i);
    e.(bucketCounts := e.bucketCounts[i := e.bucketCounts[i] + 1], sum := e.sum + value, count := e.count + 1)
  }

  /** `observeHistogram` on the series of a defined histogram: exactly one entry, the one
      of the labels' key, takes the observation; on first touch it starts from an entry
      with all slots 0. */
  function ObserveIn(s: Series<HistogramEntry>, labels: LabelSet, buckets: seq<real>, value: real)
    : (r: Series<HistogramEntry>)
    requires HistogramSeriesValid(s, buckets)
    ensures HistogramSeriesValid(r, buckets)
    ensures OnlyEntryChanged(s, r, LabelKey(labels))
    ensures LabelKey(labels) in r.entries
    ensures r.entries[LabelKey(labels)] ==
              Observe(if LabelKey(labels) in s.entries then s.entries[LabelKey(labels)]
                      else NewHistogramEntry(labels, buckets), buckets, value)
  {
    var key := LabelKey(labels);
    var entry := Current(s, key, NewHistogramEntry(labels, buckets));
    HistogramWritten(s, buckets, key, NewHistogramEntry(labels, buckets), Observe(entry, buckets, value));
    Written(s, key, NewHistogramEntry(labels, buckets), Observe(entry, buckets, value))
  }

  /** `ObserveIn` is `getHistogramEntry` (a `Touch`) followed by an observation on the
      entry it returns. */
  lemma ObserveAfterTouch(s: Series<HistogramEntry>, labels: LabelSet, buckets: seq<real>, value: real,
                          t: Series<HistogramEntry>)
    requires HistogramSeriesValid(s, buckets)
    requires t == Touch(s, LabelKey(labels), NewHistogramEntry(labels, buckets))
    ensures LabelKey(labels) in t.entries
    ensures |t.entries[LabelKey(labels)].bucketCounts| == |buckets| + 1
    ensures var key := LabelKey(labels);
            t.(entries := t.entries[key := Observe(t.entries[key], buckets, value)]) == ObserveIn(s, labels, buckets, value)
  {
  }

  /** Everything the registry holds: the catalog in definition order and the three stores. */
  datatype Snapshot = Snapshot(
    definitions: map<string, Definition>,
    order: seq<string>,
    counters: map<string, Series<ScalarEntry>>,
    gauges: map<string, Series<ScalarEntry>>,
    histograms: map<string, Series<HistogramEntry>>)

  /** The registry invariant. The catalog order lists each defined name once. Every
      series is well formed and files its entries under their label keys. A histogram
      series exists only for a defined name, and its entries match that definition's
      bounds and have `count == Σ bucketCounts`. Counter and gauge series need no
      definition. */
  ghost predicate SnapshotValid(snap: Snapshot)
  {
    && Distinct(snap.order)
    && (forall n :: n in snap.definitions <==> n in snap.order)
    && (forall n :: n in snap.counters ==> ScalarSeriesValid(snap.counters[n]))
    && (forall n :: n in snap.gauges ==> ScalarSeriesValid(snap.gauges[n]))
    && (forall n :: n in snap.histograms ==>
          n in snap.definitions && HistogramSeriesValid(snap.histograms[n], snap.definitions[n].buckets))
  }

  /** The empty registry satisfies the invariant. */
  lemma EmptyValid()
    ensures SnapshotValid(Snapshot(map[], [], map[], map[], map[]))
  {
  }

  /** A first definition appended to the catalog keeps the invariant. */
  lemma DefinitionAdded(snap: Snapshot, name: string, d: Definition)
    requires SnapshotValid(snap) && name !in snap.definitions
    ensures SnapshotValid(snap.(definitions := snap.definitions[name := d], order := snap.order + [name]))
  {
    DistinctAppend(snap.order, name);
  }

  /** Replacing one counter series by a well-formed one keeps the invariant. */
  lemma CountersReplaced(snap: Snapshot, name: string, s: Series<ScalarEntry>)
    requires SnapshotValid(snap) && ScalarSeriesValid(s)
    ensures SnapshotValid(snap.(counters := snap.counters[name := s]))
  {
  }

  /** Replacing one gauge series by a well-formed one keeps the invariant. */
  lemma GaugesReplaced(snap: Snapshot, name: string, s: Series<ScalarEntry>)
    requires SnapshotValid(snap) && ScalarSeriesValid(s)
    ensures SnapshotValid(snap.(gauges := snap.gauges[name := s]))
  {
  }

  /** Replacing the series of a defined histogram by one that matches its bounds keeps
      the invariant. */
  lemma HistogramsReplaced(snap: Snapshot, name: string, s: Series<HistogramEntry>)
    requires SnapshotValid(snap) && name in snap.definitions
    requires HistogramSeriesValid(s, snap.definitions[name].buckets)
    ensures SnapshotValid(snap.(histograms := snap.histograms[name := s]))
  {
  }

  /** Every series the invariant covers is well formed, and an absent one is empty. */
  lemma SeriesOfValid(snap: Snapshot, name: string)
    requires SnapshotValid(snap)
    ensures ScalarSeriesValid(SeriesOf(snap.counters, name))
    ensures ScalarSeriesValid(SeriesOf(snap.gauges, name))
    ensures name in snap.definitions ==>
              HistogramSeriesValid(SeriesOf(snap.histograms, name), snap.definitions[name].buckets)
  {
  }
}
