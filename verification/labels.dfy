/**
 * Label canonicalisation (app/server.js, `normaliseLabels`, `labelKey`,
 * `formatLabels`). A label object is modelled as a list of its own keys with
 * their values, each key once, in the order the object was built. JavaScript
 * lists integer-like keys first, in numeric order; every consumer sorts the
 * keys again, so that order never reaches a key or a rendered line.
 */
module Labels {
  import opened Strings

  datatype Label = Label(name: string, value: string)

  /** `Object.keys(labels)`: the label names in insertion order. */
  function Names(ls: seq<Label>): seq<string>
  {
    seq(|ls|, i requires 0 <= i < |ls| => ls[i].name)
  }

  predicate UniqueNames(ls: seq<Label>)
  {
    Distinct(Names(ls))
  }

  /** A JavaScript label object: no key occurs twice. */
  type LabelSet = ls: seq<Label> | UniqueNames(ls) witness []

  /** The mapping the object stands for: `labels[key]`. */
  function ToMap(ls: seq<Label>): map<string, string>
  {
    if ls == [] then map[] else ToMap(ls[1..])[ls[0].name := ls[0].value]
  }

  lemma ConsNames(l: Label, rest: seq<Label>)
    ensures Names([l] + rest) == [l.name] + Names(rest)
    ensures UniqueNames([l] + rest) <==> UniqueNames(rest) && l.name !in Names(rest)
  {
    var s := Names([l] + rest);
    assert s == [l.name] + Names(rest);
    if UniqueNames([l] + rest) {
      HeadNotInTail(s);
      assert s[1..] == Names(rest);
    }
    if UniqueNames(rest) && l.name !in Names(rest) {
      forall i, j | 0 <= i < j < |s| ensures s[i] != s[j] {
        assert s[j] == Names(rest)[j - 1];
        if i > 0 {
          assert s[i] == Names(rest)[i - 1];
        }
      }
    }
  }

  lemma Tail(ls: LabelSet)
    requires ls != []
    ensures UniqueNames(ls[1..]) && ls[0].name !in Names(ls[1..])
  {
    assert ls == [ls[0]] + ls[1..];
    ConsNames(ls[0], ls[1..]);
  }

  lemma {:induction false} ToMapKeys(ls: seq<Label>)
    ensures forall k :: k in ToMap(ls) <==> k in Names(ls)
  {
    if ls != [] {
      assert ls == [ls[0]] + ls[1..];
      ConsNames(ls[0], ls[1..]);
      ToMapKeys(ls[1..]);
    }
  }

  lemma {:induction false} ToMapAt(ls: LabelSet, i: nat)
    requires i < |ls|
    ensures ls[i].name in ToMap(ls) && ToMap(ls)[ls[i].name] == ls[i].value
  {
    ToMapKeys(ls);
    assert Names(ls)[i] == ls[i].name;
    if i > 0 {
      Tail(ls);
      assert Names(ls)[0] != Names(ls)[i];
      ToMapAt(ls[1..], i - 1);
    }
  }

  /** The label names in ascending order: `Object.keys(labels).sort()`. */
  function SortedNames(ls: LabelSet): (keys: seq<string>)
    ensures |keys| == |ls|
    ensures Distinct(keys)
    ensures forall k :: k in keys <==> k in ToMap(ls)
  {
    var keys := Sort(Names(ls));
    assert |keys| == |multiset(keys)| == |multiset(Names(ls))| == |Names(ls)|;
    ToMapKeys(ls);
    assert forall k :: k in keys <==> k in multiset(Names(ls));
    keys
  }

  /** The names `SortedNames` lists are in ascending order. */
  lemma SortedNamesAscending(ls: LabelSet)
    ensures Sorted(SortedNames(ls))
  {
  }

  /** The labels of `keys` with their values in `m`, in the order of `keys`. */
  function Pairs(keys: seq<string>, m: map<string, string>): (r: seq<Label>)
    requires forall k :: k in keys ==> k in m
  {
    seq(|keys|, i requires 0 <= i < |keys| => Label(keys[i], m[keys[i]]))
  }

  lemma ToMapPairs(keys: seq<string>, m: map<string, string>)
    requires Distinct(keys)
    requires forall k :: k in keys <==> k in m
    ensures Names(Pairs(keys, m)) == keys
    ensures UniqueNames(Pairs(keys, m))
    ensures ToMap(Pairs(keys, m)) == m
  {
    var r := Pairs(keys, m);
    assert Names(r) == keys;
    ToMapKeys(r);
    forall k | k in m
      ensures ToMap(r)[k] == m[k]
    {
      var i :| 0 <= i < |keys| && keys[i] == k;
      ToMapAt(r, i);
    }
  }

  /** `normaliseLabels`: the same mapping, its keys inserted in ascending order. */
  function Normalise(ls: LabelSet): (r: LabelSet)
    ensures ToMap(r) == ToMap(ls)
    ensures Names(r) == SortedNames(ls)
    ensures Sorted(Names(r))
  {
    var keys := SortedNames(ls);
    SortedNamesAscending(ls);
    ToMapPairs(keys, ToMap(ls));
    Pairs(keys, ToMap(ls))
  }

  /** The `key:value` pieces `labelKey` joins with `|`. */
  function KeyParts(keys: seq<string>, m: map<string, string>): seq<string>
    requires forall k :: k in keys ==> k in m
  {
    seq(|keys|, i requires 0 <= i < |keys| => keys[i] + ":" + m[keys[i]])
  }

  /** `labelKey`: the series identity of a label object within one metric. It is empty
      exactly for an object without labels, and otherwise starts with the smallest
      label name and a colon. */
  function LabelKey(ls: LabelSet): (k: string)
    ensures ls == [] <==> k == ""
    ensures ls != [] ==> SortedNames(ls)[0] + ":" <= k
  {
    var keys := SortedNames(ls);
    var parts := KeyParts(keys, ToMap(ls));
    JoinEnds("|", parts);
    if ls == [] then
      Join("|", parts)
    else
      assert parts[0] == keys[0] + ":" + ToMap(ls)[keys[0]];
      assert (keys[0] + ":") <= parts[0];
      Join("|", parts)
  }

  /** `String(v).replace(/"/g, '\\"')`: every double quote gets a backslash in front. */
  function Escape(v: string): (r: string)
    ensures '"' !in v ==> r == v
    ensures forall i :: 0 <= i < |r| && r[i] == '"' ==> 0 < i && r[i - 1] == '\\'
  {
    if v == [] then
      []
    else
      var head := if v[0] == '"' then "\\\"" else [v[0]];
      var rest := Escape(v[1..]);
      assert v == [v[0]] + v[1..];
      var r := head + rest;
      assert forall i :: |head| <= i < |r| ==> r[i] == rest[i - |head|];
      r
  }

  /** A reader of the quoted value: turns each `\"` back into `"`. */
  function Unescape(r: string): string
  {
    if r == [] then []
    else if |r| >= 2 && r[0] == '\\' && r[1] == '"' then ['"'] + Unescape(r[2..])
    else [r[0]] + Unescape(r[1..])
  }

  /** Escaping loses nothing: the reader gets the label value back. */
  lemma {:induction false} EscapeRoundTrip(v: string)
    ensures Unescape(Escape(v)) == v
  {
    if v != [] {
      var rest := Escape(v[1..]);
      EscapeRoundTrip(v[1..]);
      assert v == [v[0]] + v[1..];
      if v[0] == '"' {
        assert Escape(v) == "\\\"" + rest;
        assert Escape(v)[2..] == rest;
      } else {
        assert Escape(v) == [v[0]] + rest;
        assert Escape(v)[1..] == rest;
        assert |rest| > 0 ==> rest[0] != '"';
      }
    }
  }

  /** The `key="value"` pieces `formatLabels` joins with `,`. */
  function QuotedParts(keys: seq<string>, m: map<string, string>): seq<string>
    requires forall k :: k in keys ==> k in m
  {
    seq(|keys|, i requires 0 <= i < |keys| => keys[i] + "=\"" + Escape(m[keys[i]]) + "\"")
  }

  /** `formatLabels`: the `{k="v",...}` fragment of a sample line, or nothing for no labels. */
  function FormatLabels(ls: LabelSet): (r: string)
    ensures ls == [] <==> r == ""
    ensures ls != [] ==> |r| >= 2 && r[0] == '{' && r[|r| - 1] == '}'
  {
    if |Names(ls)| == 0 then ""
    else "{" + Join(",", QuotedParts(SortedNames(ls), ToMap(ls))) + "}"
  }

  /** `{ ...labels, [k]: v }`: an existing `k` keeps its place and takes the new value,
      a new `k` goes last. */
  function WithLabel(ls: LabelSet, k: string, v: string): (r: LabelSet)
    ensures ToMap(r) == ToMap(ls)[k := v]
    ensures forall n :: n in Names(r) <==> n in Names(ls) || n == k
  {
    if ls == [] then
      assert Names([Label(k, v)]) == [k];
      [Label(k, v)]
    else
      Tail(ls);
      assert ls == [ls[0]] + ls[1..];
      ConsNames(ls[0], ls[1..]);
      if ls[0].name == k then
        ConsNames(Label(k, v), ls[1..]);
        [Label(k, v)] + ls[1..]
      else
        var rest := WithLabel(ls[1..], k, v);
        ConsNames(ls[0], rest);
        [ls[0]] + rest
  }

  /** A single label renders as `{name="value"}`, the value escaped. */
  lemma FormatOne(k: string, v: string)
    ensures var one: LabelSet := [Label(k, v)];
            FormatLabels(one) == "{" + (k + "=\"" + Escape(v) + "\"") + "}"
  {
    var one: LabelSet := [Label(k, v)];
    var part := k + "=\"" + Escape(v) + "\"";
    assert Names(one) == [k];
    assert Sort([k]) == [k];
    assert ToMap(one) == map[k := v];
    assert QuotedParts([k], map[k := v]) == [part];
    assert FormatLabels(one) == "{" + Join(",", [part]) + "}";
  }

  /** Only double quotes are escaped: a value ending in a backslash is copied as it is,
      so the closing quote of the rendered label follows a backslash. */
  lemma BackslashNotEscaped(k: string, v: string)
    requires '"' !in v && v != [] && v[|v| - 1] == '\\'
    ensures var r := FormatLabels([Label(k, v)]);
            |r| >= 3 && r[|r| - 3] == '\\' && r[|r| - 2] == '"' && r[|r| - 1] == '}'
  {
    FormatOne(k, v);
    var part := k + "=\"" + v + "\"";
    var r := "{" + part + "}";
    assert r[|r| - 3] == part[|part| - 2] == v[|v| - 1];
  }

  /** Two label objects with the same mapping, whatever their key insertion order,
      get the same series identity, the same rendering and the same normal form. */
  lemma OrderIndependent(a: LabelSet, b: LabelSet)
    requires ToMap(a) == ToMap(b)
    ensures LabelKey(a) == LabelKey(b)
    ensures FormatLabels(a) == FormatLabels(b)
    ensures Normalise(a) == Normalise(b)
  {
    ToMapKeys(a);
    ToMapKeys(b);
    SameElementsSameMultiset(Names(a), Names(b));
    SortDependsOnlyOnElements(Names(a), Names(b));
    assert |Names(a)| == 0 <==> |Names(b)| == 0;
  }

  /** A normalised label object is filed under the same key and renders the same,
      and normalising twice is normalising once. */
  lemma NormalisePreservesIdentity(ls: LabelSet)
    ensures LabelKey(Normalise(ls)) == LabelKey(ls)
    ensures FormatLabels(Normalise(ls)) == FormatLabels(ls)
    ensures Normalise(Normalise(ls)) == Normalise(ls)
  {
    OrderIndependent(Normalise(ls), ls);
  }

  lemma SortedNamesOfTwo()
    ensures var two: LabelSet := [Label("a", "b"), Label("c", "d")];
            SortedNames(two) == ["a", "c"]
  {
    var two: LabelSet := [Label("a", "b"), Label("c", "d")];
    assert Names(two) == ["a", "c"];
    assert LexLe("a", "c");
    assert Sort(["c"]) == ["c"];
  }

  lemma ToMapOfTwo()
    ensures var two: LabelSet := [Label("a", "b"), Label("c", "d")];
            ToMap(two) == map["a" := "b", "c" := "d"]
  {
    var two: LabelSet := [Label("a", "b"), Label("c", "d")];
    assert two[1..] == [Label("c", "d")];
  }

  lemma KeyOfTwo()
    ensures var two: LabelSet := [Label("a", "b"), Label("c", "d")];
            LabelKey(two) == "a:b|c:d"
  {
    var two: LabelSet := [Label("a", "b"), Label("c", "d")];
    SortedNamesOfTwo();
    ToMapOfTwo();
    KeyPartsOfTwo();
    assert LabelKey(two) == Join("|", ["a:b", "c:d"]);
    JoinOfTwo();
  }

  lemma JoinOfTwo()
    ensures Join("|", ["a:b", "c:d"]) == "a:b|c:d"
  {
    assert ["a:b", "c:d"][..1] == ["a:b"];
    assert "a:b" + "|" + "c:d" == "a:b|c:d";
  }

  lemma KeyPartsOfTwo()
    ensures KeyParts(["a", "c"], map["a" := "b", "c" := "d"]) == ["a:b", "c:d"]
  {
    var parts := KeyParts(["a", "c"], map["a" := "b", "c" := "d"]);
    assert parts[0] == "a:b";
    assert parts[1] == "c:d";
  }

  lemma KeyOfOne()
    ensures var one: LabelSet := [Label("a", "b|c:d")];
            LabelKey(one) == "a:b|c:d" && "c" !in ToMap(one)
  {
    var one: LabelSet := [Label("a", "b|c:d")];
    assert Names(one) == ["a"];
    assert Sort(["a"]) == ["a"];
    assert ToMap(one) == map["a" := "b|c:d"];
    var parts := KeyParts(["a"], ToMap(one));
    assert parts[0] == "a" + ":" + "b|c:d" == "a:b|c:d";
    assert parts == ["a:b|c:d"];
  }

  /** Keys are not unique: a value holding `|` and `:` collides with two labels. */
  lemma LabelKeyCollides()
    ensures var one: LabelSet := [Label("a", "b|c:d")];
            var two: LabelSet := [Label("a", "b"), Label("c", "d")];
            ToMap(one) != ToMap(two) && LabelKey(one) == LabelKey(two)
  {
    KeyOfOne();
    KeyOfTwo();
    ToMapOfTwo();
  }
}
