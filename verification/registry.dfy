/**
 * The registry object: the four module-level maps of app/server.js (lines
 * 10-13) as fields, and the operations that update them in place.
 */
module MetricRegistry {
  import opened Strings
  import opened Labels
  import opened Metrics
  import opened Exposition

  class Registry {
    /** `metricDefinitions`, its keys kept separately in insertion order. */
    var definitions: map<string, Definition>
    var definitionOrder: seq<string>
    /** `counterStore`, `gaugeStore`, `histogramStore`: metric name to its series. */
    var counterStore: map<string, Series<ScalarEntry>>
    var gaugeStore: map<string, Series<ScalarEntry>>
    var histogramStore: map<string, Series<HistogramEntry>>

    function State(): Snapshot
      reads this
    {
      Snapshot(definitions, definitionOrder, counterStore, gaugeStore, histogramStore)
    }

    ghost predicate Valid()
      reads this
    {
      SnapshotValid(State())
    }

    constructor ()
      ensures Valid()
      ensures definitions == map[] && definitionOrder == []
      ensures counterStore == map[] && gaugeStore == map[] && histogramStore == map[]
    {
      EmptyValid();
      definitions := map[];
      definitionOrder := [];
      counterStore := map[];
      gaugeStore := map[];
      histogramStore := map[];
    }

    /** `defineMetric`: the first definition of a name wins, a later one changes neither
        the definition nor the catalog order; the store of the given type is created
        if it is missing, whatever happened to the definition. */
    method DefineMetric(name: string, kind: string, help: string, buckets: seq<real>)
      requires Valid()
      modifies this
      ensures Valid()
      ensures name in old(definitions) ==> unchanged(this`definitions, this`definitionOrder)
      ensures name !in old(definitions) ==>
                && definitions == old(definitions)[name := Definition(kind, help, buckets)]
                && definitionOrder == old(definitionOrder) + [name]
      ensures counterStore == if kind == COUNTER then GetStore(old(counterStore), name) else old(counterStore)
      ensures gaugeStore == if kind == GAUGE then GetStore(old(gaugeStore), name) else old(gaugeStore)
      ensures histogramStore ==
                if kind == HISTOGRAM then GetStore(old(histogramStore), name) else old(histogramStore)
    {
      if name !in definitions {
        ghost var snap := State();
        DefinitionAdded(snap, name, Definition(kind, help, buckets));
        definitions := definitions[name := Definition(kind, help, buckets)];
        definitionOrder := definitionOrder + [name];
        assert State() == snap.(definitions := snap.definitions[name := Definition(kind, help, buckets)],
                                order := snap.order + [name]);
      }
      ghost var snap := State();
      SeriesOfValid(snap, name);
      if kind == COUNTER {
        GetStoreIsLookup(counterStore, name);
        CountersReplaced(snap, name, SeriesOf(counterStore, name));
        counterStore := GetStore(counterStore, name);
        assert State() == snap.(counters := snap.counters[name := SeriesOf(snap.counters, name)]);
      } else if kind == GAUGE {
        GetStoreIsLookup(gaugeStore, name);
        GaugesReplaced(snap, name, SeriesOf(gaugeStore, name));
        gaugeStore := GetStore(gaugeStore, name);
        assert State() == snap.(gauges := snap.gauges[name := SeriesOf(snap.gauges, name)]);
      } else if kind == HISTOGRAM {
        GetStoreIsLookup(histogramStore, name);
        HistogramsReplaced(snap, name, SeriesOf(histogramStore, name));
        histogramStore := GetStore(histogramStore, name);
        assert State() == snap.(histograms := snap.histograms[name := SeriesOf(snap.histograms, name)]);
      }
    }

    /** `getCounterEntry`: no definition is needed; the counter series of `name` and
        its entry for the labels are created on first touch. Returns the entry's key. */
    method GetCounterEntry(name: string, labels: LabelSet) returns (key: string)
      requires Valid()
      modifies this
      ensures Valid()
      ensures key == LabelKey(labels)
      ensures counterStore == old(counterStore)[name := Touch(SeriesOf(old(counterStore), name), key, NewScalarEntry(labels))]
      ensures unchanged(this`definitions, this`definitionOrder, this`gaugeStore, this`histogramStore)
    {
      ghost var snap := State();
      SeriesOfValid(snap, name);
      var store := SeriesOf(counterStore, name);
      key := LabelKey(labels);
      if key !in store.entries {
        store := Series(store.order + [key], store.entries[key := NewScalarEntry(labels)]);
      }
      assert store == Touch(SeriesOf(snap.counters, name), key, NewScalarEntry(labels));
      CountersReplaced(snap, name, store);
      counterStore := counterStore[name := store];
      assert State() == snap.(counters := snap.counters[name := store]);
    }

    /** `getGaugeEntry`: as `getCounterEntry`, on the gauge store. */
    method GetGaugeEntry(name: string, labels: LabelSet) returns (key: string)
      requires Valid()
      modifies this
      ensures Valid()
      ensures key == LabelKey(labels)
      ensures gaugeStore == old(gaugeStore)[name := Touch(SeriesOf(old(gaugeStore), name), key, NewScalarEntry(labels))]
      ensures unchanged(this`definitions, this`definitionOrder, this`counterStore, this`histogramStore)
    {
      ghost var snap := State();
      SeriesOfValid(snap, name);
      var store := SeriesOf(gaugeStore, name);
      key := LabelKey(labels);
      if key !in store.entries {
        store := Series(store.order + [key], store.entries[key := NewScalarEntry(labels)]);
      }
      assert store == Touch(SeriesOf(snap.gauges, name), key, NewScalarEntry(labels));
      GaugesReplaced(snap, name, store);
      gaugeStore := gaugeStore[name := store];
      assert State() == snap.(gauges := snap.gauges[name := store]);
    }

    /** `getHistogramEntry`: fails before touching anything when `name` has no
        definition; otherwise creates the series and the entry on first touch, with one
        slot per bound of the definition plus the overflow slot. */
    method GetHistogramEntry(name: string, labels: LabelSet) returns (r: Result<string>)
      requires Valid()
      modifies this
      ensures Valid()
      ensures name !in old(definitions) ==> r == Err(NotDefined(name)) && unchanged(this)
      ensures name in old(definitions) ==>
                && r == Ok(LabelKey(labels))
                && histogramStore == old(histogramStore)[name := Touch(SeriesOf(old(histogramStore), name),
                     LabelKey(labels), NewHistogramEntry(labels, old(definitions)[name].buckets))]
      ensures unchanged(this`definitions, this`definitionOrder, this`counterStore, this`gaugeStore)
    {
      if name !in definitions {
        return Err(NotDefined(name));
      }
      ghost var snap := State();
      SeriesOfValid(snap, name);
      var definition := definitions[name];
      var store := SeriesOf(histogramStore, name);
      var key := LabelKey(labels);
      if key !in store.entries {
        store := Series(store.order + [key], store.entries[key := NewHistogramEntry(labels, definition.buckets)]);
      }
      assert store == Touch(SeriesOf(snap.histograms, name), key, NewHistogramEntry(labels, definition.buckets));
      HistogramsReplaced(snap, name, store);
      histogramStore := histogramStore[name := store];
      assert State() == snap.(histograms := snap.histograms[name := store]);
      return Ok(key);
    }

    /** `incCounter`: the counter entry of the labels gains `value`; nothing else changes. */
    method IncCounter(name: string, labels: LabelSet, value: real)
      requires Valid()
      modifies this
      ensures Valid()
      ensures counterStore == old(counterStore)[name := Incremented(SeriesOf(old(counterStore), name), labels, value)]
      ensures unchanged(this`definitions, this`definitionOrder, this`gaugeStore, this`histogramStore)
    {
      ghost var s := SeriesOf(counterStore, name);
      var key := GetCounterEntry(name, labels);
      ghost var snap := State();
      var store := counterStore[name];
      var entry := store.entries[key];
      store := store.(entries := store.entries[key := Bump(entry, value)]);
      assert store == Incremented(s, labels, value);
      CountersReplaced(snap, name, store);
      UpdateTwice(old(counterStore), name, counterStore[name], store);
      counterStore := counterStore[name := store];
      assert State() == snap.(counters := snap.counters[name := store]);
    }

    /** `setGauge`: the gauge entry of the labels holds `value`; nothing else changes. */
    method SetGauge(name: string, labels: LabelSet, value: real)
      requires Valid()
      modifies this
      ensures Valid()
      ensures gaugeStore == old(gaugeStore)[name := WithValue(SeriesOf(old(gaugeStore), name), labels, value)]
      ensures unchanged(this`definitions, this`definitionOrder, this`counterStore, this`histogramStore)
    {
      ghost var s := SeriesOf(gaugeStore, name);
      var key := GetGaugeEntry(name, labels);
      ghost var snap := State();
      var store := gaugeStore[name];
      var entry := store.entries[key];
      store := store.(entries := store.entries[key := entry.(value := value)]);
      assert store == WithValue(s, labels, value);
      GaugesReplaced(snap, name, store);
      UpdateTwice(old(gaugeStore), name, gaugeStore[name], store);
      gaugeStore := gaugeStore[name := store];
      assert State() == snap.(gauges := snap.gauges[name := store]);
    }

    /** `incGauge`: the gauge entry of the labels gains `value`, with no bound. */
    method IncGauge(name: string, labels: LabelSet, value: real)
      requires Valid()
      modifies this
      ensures Valid()
      ensures gaugeStore == old(gaugeStore)[name := Incremented(SeriesOf(old(gaugeStore), name), labels, value)]
      ensures unchanged(this`definitions, this`definitionOrder, this`counterStore, this`histogramStore)
    {
      ghost var s := SeriesOf(gaugeStore, name);
      var key := GetGaugeEntry(name, labels);
      ghost var snap := State();
      var store := gaugeStore[name];
      var entry := store.entries[key];
      store := store.(entries := store.entries[key := Bump(entry, value)]);
      assert store == Incremented(s, labels, value);
      GaugesReplaced(snap, name, store);
      UpdateTwice(old(gaugeStore), name, gaugeStore[name], store);
      gaugeStore := gaugeStore[name := store];
      assert State() == snap.(gauges := snap.gauges[name := store]);
    }

    /** `decGauge`: the gauge entry of the labels loses `value` but stops at 0. */
    method DecGauge(name: string, labels: LabelSet, value: real)
      requires Valid()
      modifies this
      ensures Valid()
      ensures gaugeStore == old(gaugeStore)[name := Decremented(SeriesOf(old(gaugeStore), name), labels, value)]
      ensures unchanged(this`definitions, this`definitionOrder, this`counterStore, this`histogramStore)
    {
      ghost var s := SeriesOf(gaugeStore, name);
      var key := GetGaugeEntry(name, labels);
      ghost var snap := State();
      var store := gaugeStore[name];
      var entry := store.entries[key];
      store := store.(entries := store.entries[key := Drop(entry, value)]);
      assert store == Decremented(s, labels, value);
      GaugesReplaced(snap, name, store);
      UpdateTwice(old(gaugeStore), name, gaugeStore[name], store);
      gaugeStore := gaugeStore[name := store];
      assert State() == snap.(gauges := snap.gauges[name := store]);
    }

    /** `observeHistogram`: an undefined name fails and leaves the registry as it was;
        otherwise exactly one histogram entry takes the observation. */
    method ObserveHistogram(name: string, labels: LabelSet, value: real) returns (outcome: Outcome)
      requires Valid()
      modifies this
      ensures Valid()
      ensures name !in old(definitions) ==> outcome == Fail(NotDefined(name)) && unchanged(this)
      ensures name in old(definitions) ==>
                && outcome == Pass
                && histogramStore == old(histogramStore)[name := ObserveIn(SeriesOf(old(histogramStore), name), labels,
                                                                        old(definitions)[name].buckets, value)]
      ensures unchanged(this`definitions, this`definitionOrder, this`counterStore, this`gaugeStore)
    {
      ghost var s := SeriesOf(histogramStore, name);
      var r := GetHistogramEntry(name, labels);
      if r.Err? {
        return Fail(r.error);
      }
      ghost var snap := State();
      var key := r.value;
      var buckets := definitions[name].buckets;
      var store := histogramStore[name];
      ObserveAfterTouch(s, labels, buckets, value, store);
      var entry := store.entries[key];
      store := store.(entries := store.entries[key := Observe(entry, buckets, value)]);
      HistogramsReplaced(snap, name, store);
      UpdateTwice(old(histogramStore), name, histogramStore[name], store);
      histogramStore := histogramStore[name := store];
      assert State() == snap.(histograms := snap.histograms[name := store]);
      return Pass;
    }

    /** `renderMetrics`: reads the catalog and the stores, changes nothing, and returns
        the exposition document followed by the process lines. */
    method RenderMetrics(show: real -> string, processLines: seq<string>) returns (text: string)
      requires Valid()
      ensures forall n :: n in definitionOrder ==> Renders(State(), n)
      ensures text == Render(State(), show, processLines)
    {
      var snap := State();
      ValidRenders(snap);
      var lines: seq<string> := [];
      for i := 0 to |snap.order|
        invariant lines == Lines(snap, snap.order[..i], show)
      {
        assert snap.order[i] in snap.order;
        var family := RenderFamily(snap, snap.order[i], show);
        lines := lines + family;
        assert snap.order[..i + 1][..i] == snap.order[..i];
      }
      assert snap.order[..|snap.order|] == snap.order;
      text := Join("\n", lines + processLines) + "\n";
    }
  }
}
