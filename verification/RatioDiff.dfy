/** `buildDifferences` of controller/ratio_sync.go: the local ratios against those of
    several upstream channels, in one comparing pass over nested maps and a second
    pass that prunes channels and items. */
module RatioDiff {
  import opened Basics
  import opened Tolerance

  /** An `interface{}`: nil, a number, a text, or any other decoded JSON value. */
  datatype Value = Null | Number(r: real) | Text(s: string) | Other(n: nat)

  /** The cell that stands for "no difference"; an upstream text may look the same. */
  const SAME := Text("same")

  const RATIO_TYPES := ["model_ratio", "completion_ratio", "cache_ratio", "model_price"]

  /** Ratio type to model to ratio; a missing or ill-typed table is an absent one. */
  type LocalData = map<string, map<string, real>>

  datatype Channel = Channel(name: string, data: map<string, map<string, Value>>)

  datatype Item = Item(current: Value, upstreams: map<string, Value>, confidence: map<string, bool>)

  /** Model to ratio type to item. */
  type Differences = map<string, map<string, Item>>

  predicate ValuesEqual(a: Value, b: Value) {
    if a.Number? && b.Number? then NearlyEqual(a.r, b.r) else a == b
  }

  // ---------------------------------------------------------------------
  // One cell
  // ---------------------------------------------------------------------

  function LocalValue(local: LocalData, rt: string, m: string): Value {
    if rt in local && m in local[rt] then Number(local[rt][m]) else Null
  }

  function UpstreamValue(ch: Channel, rt: string, m: string): Option<Value> {
    if rt in ch.data && m in ch.data[rt] then Some(ch.data[rt][m]) else None
  }

  /** What is listed for a channel. */
  function Cell(local: Value, upstream: Option<Value>): Value {
    if upstream.None? then (if local == Null then SAME else Null)
    else if ValuesEqual(local, upstream.value) then SAME
    else upstream.value
  }

  /** A cell that shows an actual upstream value. */
  predicate Concrete(cell: Value) {
    cell != Null && cell != SAME
  }

  /** A channel's contribution to "there is a difference". */
  predicate Differs(local: Value, upstream: Option<Value>) {
    if local != Null then upstream.Some? && !ValuesEqual(local, upstream.value)
    else Concrete(Cell(local, upstream))
  }

  /** model_ratio 37.5 with completion_ratio 1 marks a made-up price. */
  predicate Confident(ch: Channel, m: string) {
    !(&& "model_ratio" in ch.data && "completion_ratio" in ch.data
      && UpstreamValue(ch, "model_ratio", m) == Some(Number(37.5))
      && UpstreamValue(ch, "completion_ratio", m) == Some(Number(1.0)))
  }

  // ---------------------------------------------------------------------
  // One item
  // ---------------------------------------------------------------------

  function Cells(channels: seq<Channel>, local: Value, rt: string, m: string): map<string, Value> {
    if channels == [] then map[]
    else
      var last := channels[|channels| - 1];
      Cells(channels[..|channels| - 1], local, rt, m)[last.name := Cell(local, UpstreamValue(last, rt, m))]
  }

  function Confidences(channels: seq<Channel>, m: string): map<string, bool> {
    if channels == [] then map[]
    else
      var last := channels[|channels| - 1];
      Confidences(channels[..|channels| - 1], m)[last.name := Confident(last, m)]
  }

  ghost predicate SomeValue(channels: seq<Channel>, rt: string, m: string) {
    exists i :: 0 <= i < |channels| && UpstreamValue(channels[i], rt, m).Some?
  }

  ghost predicate SomeDifference(channels: seq<Channel>, local: Value, rt: string, m: string) {
    exists i :: 0 <= i < |channels| && Differs(local, UpstreamValue(channels[i], rt, m))
  }

  /** The comparing pass makes an item. */
  ghost predicate Included(local: LocalData, channels: seq<Channel>, rt: string, m: string) {
    if LocalValue(local, rt, m) != Null then SomeDifference(channels, LocalValue(local, rt, m), rt, m)
    else SomeValue(channels, rt, m)
  }

  function RawItem(local: LocalData, channels: seq<Channel>, rt: string, m: string): Item {
    Item(LocalValue(local, rt, m), Cells(channels, LocalValue(local, rt, m), rt, m), Confidences(channels, m))
  }

  lemma OneMoreChannel(channels: seq<Channel>, i: nat, local: Value, rt: string, m: string)
    requires i < |channels|
    ensures var before, after, ch := channels[..i], channels[..i + 1], channels[i];
            && Cells(after, local, rt, m) == Cells(before, local, rt, m)[ch.name := Cell(local, UpstreamValue(ch, rt, m))]
            && Confidences(after, m) == Confidences(before, m)[ch.name := Confident(ch, m)]
            && (SomeValue(after, rt, m) <==> SomeValue(before, rt, m) || UpstreamValue(ch, rt, m).Some?)
            && (SomeDifference(after, local, rt, m) <==> SomeDifference(before, local, rt, m) || Differs(local, UpstreamValue(ch, rt, m)))
  {
    assert channels[..i + 1][..i] == channels[..i];
    OneMoreAnswer(channels, i, local, rt, m);
  }

  lemma OneMoreAnswer(channels: seq<Channel>, i: nat, local: Value, rt: string, m: string)
    requires i < |channels|
    ensures var before, after, ch := channels[..i], channels[..i + 1], channels[i];
            && (SomeValue(after, rt, m) <==> SomeValue(before, rt, m) || UpstreamValue(ch, rt, m).Some?)
            && (SomeDifference(after, local, rt, m) <==> SomeDifference(before, local, rt, m) || Differs(local, UpstreamValue(ch, rt, m)))
  {
    var before, after := channels[..i], channels[..i + 1];
    assert forall k :: 0 <= k < i ==> before[k] == after[k];
    assert after[i] == channels[i];
    if SomeValue(before, rt, m) {
      var k :| 0 <= k < |before| && UpstreamValue(before[k], rt, m).Some?;
      assert UpstreamValue(after[k], rt, m).Some?;
    }
    if SomeDifference(before, local, rt, m) {
      var k :| 0 <= k < |before| && Differs(local, UpstreamValue(before[k], rt, m));
      assert Differs(local, UpstreamValue(after[k], rt, m));
    }
  }

  /** The comparison of one model and ratio type with one channel. */
  method CompareOne(localValue: Value, channel: Channel, rt: string, m: string)
    returns (upstreamValue: Value, hasUpstreamValue: bool, hasDifference: bool)
    ensures upstreamValue == Cell(localValue, UpstreamValue(channel, rt, m))
    ensures hasUpstreamValue <==> UpstreamValue(channel, rt, m).Some?
    ensures hasDifference <==> Differs(localValue, UpstreamValue(channel, rt, m))
  {
    upstreamValue, hasUpstreamValue, hasDifference := Null, false, false;
    if rt in channel.data && m in channel.data[rt] {
      var val := channel.data[rt][m];
      upstreamValue := val;
      hasUpstreamValue := true;
      if localValue != Null && !ValuesEqual(localValue, val) {
        hasDifference := true;
      } else if ValuesEqual(localValue, val) {
        upstreamValue := SAME;
      }
    }
    if upstreamValue == Null && localValue == Null {
      upstreamValue := SAME;
    }
    if localValue == Null && upstreamValue != Null && upstreamValue != SAME {
      hasDifference := true;
    }
  }

  /** The comparison of one model and ratio type with every channel. */
  method Compare(localValue: Value, channels: seq<Channel>, rt: string, m: string, confidence: map<string, map<string, bool>>)
    returns (upstreams: map<string, Value>, confidences: map<string, bool>, hasUpstreamValue: bool, hasDifference: bool)
    requires forall i :: 0 <= i < |channels| ==> ConfidenceKnown(confidence, channels[i], m)
    ensures upstreams == Cells(channels, localValue, rt, m)
    ensures confidences == Confidences(channels, m)
    ensures hasUpstreamValue <==> SomeValue(channels, rt, m)
    ensures hasDifference <==> SomeDifference(channels, localValue, rt, m)
  {
    upstreams, confidences := map[], map[];
    hasUpstreamValue, hasDifference := false, false;
    for i := 0 to |channels|
      invariant upstreams == Cells(channels[..i], localValue, rt, m)
      invariant confidences == Confidences(channels[..i], m)
      invariant hasUpstreamValue <==> SomeValue(channels[..i], rt, m)
      invariant hasDifference <==> SomeDifference(channels[..i], localValue, rt, m)
    {
      var channel := channels[i];
      OneMoreChannel(channels, i, localValue, rt, m);
      assert ConfidenceKnown(confidence, channel, m);
      var upstreamValue, hasValue, differs := CompareOne(localValue, channel, rt, m);
      hasUpstreamValue := hasUpstreamValue || hasValue;
      hasDifference := hasDifference || differs;
      upstreams := upstreams[channel.name := upstreamValue];
      confidences := confidences[channel.name := confidence[channel.name][m]];
    }
    assert channels[..|channels|] == channels;
  }

  ghost predicate ConfidenceKnown(confidence: map<string, map<string, bool>>, ch: Channel, m: string) {
    ch.name in confidence && m in confidence[ch.name] && confidence[ch.name][m] == Confident(ch, m)
  }

  // ---------------------------------------------------------------------
  // The comparing pass
  // ---------------------------------------------------------------------

  predicate HasItem(diffs: Differences, m: string, rt: string) {
    m in diffs && rt in diffs[m]
  }

  function ModelsIn<T>(tables: map<string, map<string, T>>, n: nat): set<string>
    requires n <= |RATIO_TYPES|
  {
    if n == 0 then {}
    else ModelsIn(tables, n - 1) + if RATIO_TYPES[n - 1] in tables then tables[RATIO_TYPES[n - 1]].Keys else {}
  }

  lemma {:induction false} ModelsInComplete<T>(tables: map<string, map<string, T>>, n: nat, k: nat, m: string)
    requires k < n <= |RATIO_TYPES| && RATIO_TYPES[k] in tables && m in tables[RATIO_TYPES[k]]
    ensures m in ModelsIn(tables, n)
  {
    if k < n - 1 {
      ModelsInComplete(tables, n - 1, k, m);
    }
  }

  /** The models that have a ratio of some type, locally or upstream. */
  method CollectModels(local: LocalData, channels: seq<Channel>) returns (allModels: set<string>)
    ensures ModelsIn(local, |RATIO_TYPES|) <= allModels
    ensures forall i :: 0 <= i < |channels| ==> ModelsIn(channels[i].data, |RATIO_TYPES|) <= allModels
  {
    allModels := CollectFrom(local);
    for i := 0 to |channels|
      invariant ModelsIn(local, |RATIO_TYPES|) <= allModels
      invariant forall k :: 0 <= k < i ==> ModelsIn(channels[k].data, |RATIO_TYPES|) <= allModels
    {
      var models := CollectFrom(channels[i].data);
      allModels := allModels + models;
    }
  }

  method CollectFrom<T>(tables: map<string, map<string, T>>) returns (models: set<string>)
    ensures models == ModelsIn(tables, |RATIO_TYPES|)
  {
    models := {};
    for k := 0 to |RATIO_TYPES|
      invariant models == ModelsIn(tables, k)
    {
      if RATIO_TYPES[k] in tables {
        models := models + tables[RATIO_TYPES[k]].Keys;
      }
    }
  }

  lemma IncludedIsListed(local: LocalData, channels: seq<Channel>, rt: string, m: string, models: set<string>)
    requires rt in RATIO_TYPES && Included(local, channels, rt, m)
    requires forall i :: 0 <= i < |channels| ==> ModelsIn(channels[i].data, |RATIO_TYPES|) <= models
    ensures m in models
  {
    var k :| 0 <= k < |RATIO_TYPES| && RATIO_TYPES[k] == rt;
    assert exists i :: 0 <= i < |channels| && UpstreamValue(channels[i], rt, m).Some? by {
      var l := LocalValue(local, rt, m);
      if l != Null {
        var i :| 0 <= i < |channels| && Differs(l, UpstreamValue(channels[i], rt, m));
        assert UpstreamValue(channels[i], rt, m).Some?;
      }
    }
    var i :| 0 <= i < |channels| && UpstreamValue(channels[i], rt, m).Some?;
    ModelsInComplete(channels[i].data, |RATIO_TYPES|, k, m);
  }

  ghost predicate DistinctNames(channels: seq<Channel>) {
    forall i, j :: 0 <= i < j < |channels| ==> channels[i].name != channels[j].name
  }

  /** How far each channel's price of each model is believed. */
  method BuildConfidence(channels: seq<Channel>, models: set<string>) returns (confidence: map<string, map<string, bool>>)
    requires DistinctNames(channels)
    ensures forall i, m :: 0 <= i < |channels| && m in models ==> ConfidenceKnown(confidence, channels[i], m)
  {
    confidence := map[];
    for i := 0 to |channels|
      invariant forall k, m :: 0 <= k < i && m in models ==> ConfidenceKnown(confidence, channels[k], m)
    {
      var column := ConfidenceColumn(channels[i], models);
      confidence := confidence[channels[i].name := column];
    }
  }

  method ConfidenceColumn(channel: Channel, models: set<string>) returns (column: map<string, bool>)
    ensures column == map m | m in models :: Confident(channel, m)
  {
    column := map[];
    var rest := models;
    while rest != {}
      invariant rest <= models
      invariant column == map m | m in models && m !in rest :: Confident(channel, m)
      decreases |rest|
    {
      var m :| m in rest;
      rest := rest - {m};
      var trusted := true;
      if "model_ratio" in channel.data && "completion_ratio" in channel.data {
        if m in channel.data["model_ratio"] && m in channel.data["completion_ratio"] {
          if channel.data["model_ratio"][m] == Number(37.5) && channel.data["completion_ratio"][m] == Number(1.0) {
            trusted := false;
          }
        }
      }
      column := column[m := trusted];
    }
  }

  /** The items of one model. */
  ghost predicate AreItemsOf(items: map<string, Item>, local: LocalData, channels: seq<Channel>, m: string) {
    && (forall rt :: rt in items <==> rt in RATIO_TYPES && Included(local, channels, rt, m))
    && (forall rt :: rt in items ==> items[rt] == RawItem(local, channels, rt, m))
  }

  method CompareModel(local: LocalData, channels: seq<Channel>, m: string, confidence: map<string, map<string, bool>>)
    returns (items: map<string, Item>)
    requires forall i :: 0 <= i < |channels| ==> ConfidenceKnown(confidence, channels[i], m)
    ensures AreItemsOf(items, local, channels, m)
  {
    items := map[];
    for k := 0 to |RATIO_TYPES|
      invariant forall rt :: rt in items <==> rt in RATIO_TYPES[..k] && Included(local, channels, rt, m)
      invariant forall rt :: rt in items ==> items[rt] == RawItem(local, channels, rt, m)
    {
      var rt := RATIO_TYPES[k];
      assert RATIO_TYPES[..k + 1] == RATIO_TYPES[..k] + [rt];
      var localValue := LocalValue(local, rt, m);
      var upstreams, confidences, hasUpstreamValue, hasDifference := Compare(localValue, channels, rt, m, confidence);
      var shouldInclude := if localValue != Null then hasDifference else hasUpstreamValue;
      if shouldInclude {
        items := items[rt := Item(localValue, upstreams, confidences)];
      }
    }
    assert RATIO_TYPES[..|RATIO_TYPES|] == RATIO_TYPES;
  }

  ghost predicate IsComparison(diffs: Differences, local: LocalData, channels: seq<Channel>, models: set<string>) {
    && (forall m, rt :: HasItem(diffs, m, rt) <==> m in models && rt in RATIO_TYPES && Included(local, channels, rt, m))
    && (forall m, rt :: HasItem(diffs, m, rt) ==> diffs[m][rt] == RawItem(local, channels, rt, m))
  }

  lemma ComparisonStep(diffs: Differences, local: LocalData, channels: seq<Channel>, done: set<string>, m: string, items: map<string, Item>)
    requires IsComparison(diffs, local, channels, done) && m !in done && diffs.Keys <= done
    requires AreItemsOf(items, local, channels, m)
    ensures IsComparison(if items == map[] then diffs else diffs[m := items], local, channels, done + {m})
  {
    var diffs' := if items == map[] then diffs else diffs[m := items];
    forall m', rt
      ensures HasItem(diffs', m', rt) <==> m' in done + {m} && rt in RATIO_TYPES && Included(local, channels, rt, m')
      ensures HasItem(diffs', m', rt) ==> diffs'[m'][rt] == RawItem(local, channels, rt, m')
    {
      if m' != m {
        assert HasItem(diffs', m', rt) <==> HasItem(diffs, m', rt);
      } else {
        assert HasItem(diffs', m, rt) <==> rt in items;
      }
    }
  }

  method CompareAll(local: LocalData, channels: seq<Channel>, models: set<string>, confidence: map<string, map<string, bool>>)
    returns (diffs: Differences)
    requires forall i, m :: 0 <= i < |channels| && m in models ==> ConfidenceKnown(confidence, channels[i], m)
    ensures IsComparison(diffs, local, channels, models)
  {
    diffs := map[];
    var rest := models;
    ghost var done: set<string> := {};
    while rest != {}
      invariant done + rest == models && done !! rest && diffs.Keys <= done
      invariant IsComparison(diffs, local, channels, done)
      decreases |rest|
    {
      var m :| m in rest;
      rest := rest - {m};
      var items := CompareModel(local, channels, m, confidence);
      ComparisonStep(diffs, local, channels, done, m, items);
      if |items| != 0 {
        diffs := diffs[m := items];
      } else {
        assert items == map[];
      }
      done := done + {m};
    }
    assert done == models;
  }

  // ---------------------------------------------------------------------
  // The pruning pass
  // ---------------------------------------------------------------------

  function ConcreteIn(items: map<string, Item>): set<string> {
    set rt, n | rt in items && n in items[rt].upstreams && Concrete(items[rt].upstreams[n]) :: n
  }

  /** The channels that show an actual difference somewhere. */
  function Flagged(diffs: Differences): set<string> {
    set m, n | m in diffs && n in ConcreteIn(diffs[m]) :: n
  }

  method FlagChannels(diffs: Differences) returns (flagged: set<string>)
    ensures flagged == Flagged(diffs)
  {
    flagged := {};
    var rest := diffs.Keys;
    while rest != {}
      invariant rest <= diffs.Keys
      invariant flagged == set m, n | m in diffs && m !in rest && n in ConcreteIn(diffs[m]) :: n
      decreases |rest|
    {
      var m :| m in rest;
      var names := FlagItems(diffs[m]);
      flagged := flagged + names;
      rest := rest - {m};
    }
  }

  method FlagItems(items: map<string, Item>) returns (names: set<string>)
    ensures names == ConcreteIn(items)
  {
    names := {};
    var rest := items.Keys;
    while rest != {}
      invariant rest <= items.Keys
      invariant names == set rt, n | rt in items && rt !in rest && n in items[rt].upstreams && Concrete(items[rt].upstreams[n]) :: n
      decreases |rest|
    {
      var rt :| rt in rest;
      names := names + set n | n in items[rt].upstreams && Concrete(items[rt].upstreams[n]);
      rest := rest - {rt};
    }
  }

  function PruneItem(item: Item, flagged: set<string>): Item {
    var dropped := item.upstreams.Keys - flagged;
    Item(item.current, item.upstreams - dropped, item.confidence - dropped)
  }

  predicate AllSame(item: Item) {
    forall n :: n in item.upstreams ==> item.upstreams[n] == SAME
  }

  function PruneItems(items: map<string, Item>, flagged: set<string>): map<string, Item> {
    map rt | rt in items && !AllSame(PruneItem(items[rt], flagged)) :: PruneItem(items[rt], flagged)
  }

  function Pruned(diffs: Differences, flagged: set<string>): Differences {
    map m | m in diffs && PruneItems(diffs[m], flagged) != map[] :: PruneItems(diffs[m], flagged)
  }

  /** A map rewritten except at the keys in `rest`; a key missing from `after` is deleted. */
  function Rewritten<V>(before: map<string, V>, after: map<string, V>, rest: set<string>): map<string, V> {
    map k | k in before && (k in rest || k in after) :: if k in rest then before[k] else after[k]
  }

  lemma RewriteStep<V>(before: map<string, V>, after: map<string, V>, rest: set<string>, k: string)
    requires k in rest && k in before
    ensures Rewritten(before, after, rest - {k}) ==
            if k in after then Rewritten(before, after, rest)[k := after[k]] else Rewritten(before, after, rest) - {k}
  {
  }

  lemma RewriteEnds<V>(before: map<string, V>, after: map<string, V>)
    requires after.Keys <= before.Keys
    ensures Rewritten(before, after, before.Keys) == before
    ensures Rewritten(before, after, {}) == after
  {
  }

  method PruneModel(items: map<string, Item>, flagged: set<string>) returns (kept: map<string, Item>)
    ensures kept == PruneItems(items, flagged)
  {
    ghost var pruned := PruneItems(items, flagged);
    RewriteEnds(items, pruned);
    kept := items;
    var rest := items.Keys;
    while rest != {}
      invariant rest <= items.Keys
      invariant kept == Rewritten(items, pruned, rest)
      decreases |rest|
    {
      var rt :| rt in rest;
      var dropped := items[rt].upstreams.Keys - flagged;
      var item := Item(items[rt].current, items[rt].upstreams - dropped, items[rt].confidence - dropped);
      RewriteStep(items, pruned, rest, rt);
      if |item.upstreams| == 0 || AllSame(item) {
        kept := kept - {rt};
      } else {
        kept := kept[rt := item];
      }
      rest := rest - {rt};
    }
  }

  method Prune(diffs: Differences, flagged: set<string>) returns (r: Differences)
    ensures r == Pruned(diffs, flagged)
  {
    ghost var pruned := Pruned(diffs, flagged);
    RewriteEnds(diffs, pruned);
    r := diffs;
    var rest := diffs.Keys;
    while rest != {}
      invariant rest <= diffs.Keys
      invariant r == Rewritten(diffs, pruned, rest)
      decreases |rest|
    {
      var m :| m in rest;
      var kept := PruneModel(diffs[m], flagged);
      RewriteStep(diffs, pruned, rest, m);
      assert |kept| == 0 <==> kept == map[];
      if |kept| == 0 {
        r := r - {m};
      } else {
        r := r[m := kept];
      }
      rest := rest - {m};
    }
  }

  // ---------------------------------------------------------------------
  // The declarative specification
  // ---------------------------------------------------------------------

  function CellAt(local: LocalData, ch: Channel, rt: string, m: string): Value {
    Cell(LocalValue(local, rt, m), UpstreamValue(ch, rt, m))
  }

  /** The channel shows an actual value for this model and ratio type. */
  ghost predicate DiffersAt(local: LocalData, ch: Channel, rt: string, m: string) {
    rt in RATIO_TYPES && Concrete(CellAt(local, ch, rt, m))
  }

  ghost predicate DiffersSomewhere(local: LocalData, ch: Channel) {
    exists rt, m :: DiffersAt(local, ch, rt, m)
  }

  /** A channel that differs somewhere has something to say about this item. */
  ghost predicate SomeoneDisagrees(local: LocalData, channels: seq<Channel>, rt: string, m: string) {
    exists i :: 0 <= i < |channels| && DiffersSomewhere(local, channels[i]) && CellAt(local, channels[i], rt, m) != SAME
  }

  /** The item lists exactly the channels that differ somewhere. */
  ghost predicate ItemExact(item: Item, local: LocalData, channels: seq<Channel>, rt: string, m: string) {
    && item.current == LocalValue(local, rt, m)
    && item.confidence.Keys == item.upstreams.Keys
    && (forall n :: n in item.upstreams ==> exists i :: 0 <= i < |channels| && channels[i].name == n)
    && (forall i :: 0 <= i < |channels| ==>
          && (channels[i].name in item.upstreams <==> DiffersSomewhere(local, channels[i]))
          && (channels[i].name in item.upstreams ==>
                && item.upstreams[channels[i].name] == CellAt(local, channels[i], rt, m)
                && item.confidence[channels[i].name] == Confident(channels[i], m)))
  }

  ghost predicate Exact(diffs: Differences, local: LocalData, channels: seq<Channel>) {
    && (forall m, rt :: HasItem(diffs, m, rt) <==>
          rt in RATIO_TYPES && Included(local, channels, rt, m) && SomeoneDisagrees(local, channels, rt, m))
    && (forall m, rt :: HasItem(diffs, m, rt) ==> ItemExact(diffs[m][rt], local, channels, rt, m))
    && (forall m :: m in diffs ==> diffs[m] != map[])
  }

  lemma {:induction false} CellsLookup(channels: seq<Channel>, local: Value, rt: string, m: string, i: nat)
    requires DistinctNames(channels) && i < |channels|
    ensures channels[i].name in Cells(channels, local, rt, m)
    ensures Cells(channels, local, rt, m)[channels[i].name] == Cell(local, UpstreamValue(channels[i], rt, m))
    ensures channels[i].name in Confidences(channels, m)
    ensures Confidences(channels, m)[channels[i].name] == Confident(channels[i], m)
  {
    if i < |channels| - 1 {
      CellsLookup(channels[..|channels| - 1], local, rt, m, i);
    }
  }

  lemma {:induction false} CellsNames(channels: seq<Channel>, local: Value, rt: string, m: string)
    ensures Cells(channels, local, rt, m).Keys == Confidences(channels, m).Keys
    ensures forall n :: n in Cells(channels, local, rt, m) ==> exists i :: 0 <= i < |channels| && channels[i].name == n
  {
    if channels != [] {
      var front := channels[..|channels| - 1];
      CellsNames(front, local, rt, m);
      forall n | n in Cells(channels, local, rt, m) ensures exists i :: 0 <= i < |channels| && channels[i].name == n {
        if n in Cells(front, local, rt, m) {
          var i :| 0 <= i < |front| && front[i].name == n;
          assert channels[i].name == n;
        } else {
          assert channels[|channels| - 1].name == n;
        }
      }
    }
  }

  /** A channel that shows an actual value has caused an item. */
  lemma DifferenceIncluded(local: LocalData, channels: seq<Channel>, i: nat, rt: string, m: string)
    requires i < |channels| && Concrete(CellAt(local, channels[i], rt, m))
    ensures Included(local, channels, rt, m)
  {
    assert UpstreamValue(channels[i], rt, m).Some?;
    assert Differs(LocalValue(local, rt, m), UpstreamValue(channels[i], rt, m));
  }

  ghost predicate Covers(models: set<string>, channels: seq<Channel>) {
    forall i :: 0 <= i < |channels| ==> ModelsIn(channels[i].data, |RATIO_TYPES|) <= models
  }

  /** The flags of the pruning pass are the channels that differ somewhere. */
  lemma FlaggedExact(raw: Differences, local: LocalData, channels: seq<Channel>, models: set<string>, i: nat)
    requires IsComparison(raw, local, channels, models) && Covers(models, channels) && DistinctNames(channels)
    requires i < |channels|
    ensures channels[i].name in Flagged(raw) <==> DiffersSomewhere(local, channels[i])
  {
    var n := channels[i].name;
    if n in Flagged(raw) {
      var m :| m in raw && n in ConcreteIn(raw[m]);
      var rt :| rt in raw[m] && n in raw[m][rt].upstreams && Concrete(raw[m][rt].upstreams[n]);
      assert HasItem(raw, m, rt);
      CellsLookup(channels, LocalValue(local, rt, m), rt, m, i);
      assert DiffersAt(local, channels[i], rt, m);
    }
    if DiffersSomewhere(local, channels[i]) {
      var rt, m :| DiffersAt(local, channels[i], rt, m);
      DifferenceIncluded(local, channels, i, rt, m);
      IncludedIsListed(local, channels, rt, m, models);
      assert HasItem(raw, m, rt);
      CellsLookup(channels, LocalValue(local, rt, m), rt, m, i);
      assert n in ConcreteIn(raw[m]);
    }
  }

  /** Pruning an item leaves exactly the flagged channels. */
  lemma PrunedItemExact(raw: Differences, local: LocalData, channels: seq<Channel>, models: set<string>, rt: string, m: string)
    requires IsComparison(raw, local, channels, models) && Covers(models, channels) && DistinctNames(channels)
    ensures ItemExact(PruneItem(RawItem(local, channels, rt, m), Flagged(raw)), local, channels, rt, m)
    ensures !AllSame(PruneItem(RawItem(local, channels, rt, m), Flagged(raw))) <==> SomeoneDisagrees(local, channels, rt, m)
  {
    var flagged := Flagged(raw);
    var l := LocalValue(local, rt, m);
    var item := PruneItem(RawItem(local, channels, rt, m), flagged);
    CellsNames(channels, l, rt, m);
    forall i | 0 <= i < |channels|
      ensures channels[i].name in item.upstreams <==> DiffersSomewhere(local, channels[i])
      ensures channels[i].name in item.upstreams ==>
                && item.upstreams[channels[i].name] == CellAt(local, channels[i], rt, m)
                && item.confidence[channels[i].name] == Confident(channels[i], m)
    {
      CellsLookup(channels, l, rt, m, i);
      FlaggedExact(raw, local, channels, models, i);
    }
    if !AllSame(item) {
      var n :| n in item.upstreams && item.upstreams[n] != SAME;
      var i :| 0 <= i < |channels| && channels[i].name == n;
      assert DiffersSomewhere(local, channels[i]) && CellAt(local, channels[i], rt, m) != SAME;
    }
    if SomeoneDisagrees(local, channels, rt, m) {
      var i :| 0 <= i < |channels| && DiffersSomewhere(local, channels[i]) && CellAt(local, channels[i], rt, m) != SAME;
      assert item.upstreams[channels[i].name] != SAME;
    }
  }

  lemma PrunedLookup(raw: Differences, flagged: set<string>, rt: string, m: string)
    ensures HasItem(Pruned(raw, flagged), m, rt) <==> HasItem(raw, m, rt) && !AllSame(PruneItem(raw[m][rt], flagged))
    ensures HasItem(Pruned(raw, flagged), m, rt) ==> Pruned(raw, flagged)[m][rt] == PruneItem(raw[m][rt], flagged)
  {
    if HasItem(raw, m, rt) && !AllSame(PruneItem(raw[m][rt], flagged)) {
      assert rt in PruneItems(raw[m], flagged);
    }
  }

  lemma PrunedPairExact(raw: Differences, local: LocalData, channels: seq<Channel>, models: set<string>, rt: string, m: string)
    requires IsComparison(raw, local, channels, models) && Covers(models, channels) && DistinctNames(channels)
    ensures HasItem(Pruned(raw, Flagged(raw)), m, rt) <==>
              rt in RATIO_TYPES && Included(local, channels, rt, m) && SomeoneDisagrees(local, channels, rt, m)
    ensures HasItem(Pruned(raw, Flagged(raw)), m, rt) ==>
              ItemExact(Pruned(raw, Flagged(raw))[m][rt], local, channels, rt, m)
  {
    PrunedLookup(raw, Flagged(raw), rt, m);
    PrunedItemExact(raw, local, channels, models, rt, m);
    if rt in RATIO_TYPES && Included(local, channels, rt, m) {
      IncludedIsListed(local, channels, rt, m, models);
    }
    assert HasItem(raw, m, rt) <==> m in models && rt in RATIO_TYPES && Included(local, channels, rt, m);
  }

  lemma PruneIsExact(raw: Differences, local: LocalData, channels: seq<Channel>, models: set<string>)
    requires IsComparison(raw, local, channels, models) && Covers(models, channels) && DistinctNames(channels)
    ensures Exact(Pruned(raw, Flagged(raw)), local, channels)
  {
    forall m, rt
      ensures HasItem(Pruned(raw, Flagged(raw)), m, rt) <==>
                rt in RATIO_TYPES && Included(local, channels, rt, m) && SomeoneDisagrees(local, channels, rt, m)
      ensures HasItem(Pruned(raw, Flagged(raw)), m, rt) ==>
                ItemExact(Pruned(raw, Flagged(raw))[m][rt], local, channels, rt, m)
    {
      PrunedPairExact(raw, local, channels, models, rt, m);
    }
  }

  /** For all data and distinct channel names: an item for exactly the pairs where some
      channel that differs anywhere disagrees here, listing exactly the channels that
      differ anywhere, with their confidence. */
  method BuildDifferences(local: LocalData, channels: seq<Channel>) returns (diffs: Differences)
    requires DistinctNames(channels)
    ensures Exact(diffs, local, channels)
  {
    var allModels := CollectModels(local, channels);
    var confidence := BuildConfidence(channels, allModels);
    var raw := CompareAll(local, channels, allModels, confidence);
    var flagged := FlagChannels(raw);
    diffs := Prune(raw, flagged);
    PruneIsExact(raw, local, channels, allModels);
  }

  // ---------------------------------------------------------------------
  // What an item shows, read off the tables
  // ---------------------------------------------------------------------

  ghost predicate HasLocal(local: LocalData, rt: string, m: string) {
    rt in local && m in local[rt]
  }

  ghost predicate HasUpstream(ch: Channel, rt: string, m: string) {
    rt in ch.data && m in ch.data[rt]
  }

  /** Two numbers that are at least the tolerance apart. */
  predicate Apart(a: real, b: real) {
    a - b >= 0.000000001 || b - a >= 0.000000001
  }

  /** The entry of a channel: its own value where there is one that differs, "same" where
      it agrees with the local one or neither exists, nothing where only the local one
      exists. */
  ghost predicate EntryShown(entry: Value, local: LocalData, ch: Channel, rt: string, m: string) {
    if !HasUpstream(ch, rt, m) then
      entry == if HasLocal(local, rt, m) then Null else Text("same")
    else
      var value := ch.data[rt][m];
      if HasLocal(local, rt, m) then
        entry == if value.Number? && !Apart(value.r, local[rt][m]) then Text("same") else value
      else
        entry == if value == Null then Text("same") else value
  }

  /** The mark of a made-up price. */
  ghost predicate MadeUp(ch: Channel, m: string) {
    && HasUpstream(ch, "model_ratio", m) && ch.data["model_ratio"][m] == Number(37.5)
    && HasUpstream(ch, "completion_ratio", m) && ch.data["completion_ratio"][m] == Number(1.0)
  }

  lemma CellShown(local: LocalData, ch: Channel, rt: string, m: string)
    ensures EntryShown(CellAt(local, ch, rt, m), local, ch, rt, m)
    ensures LocalValue(local, rt, m) == if HasLocal(local, rt, m) then Number(local[rt][m]) else Null
    ensures !Confident(ch, m) <==> MadeUp(ch, m)
  {
  }

  lemma OwnValueShown(local: LocalData, ch: Channel, rt: string, m: string)
    ensures DiffersAt(local, ch, rt, m) <==> ShowsOwnValue(local, ch, rt, m)
  {
  }

  lemma ItemOf(diffs: Differences, local: LocalData, channels: seq<Channel>, rt: string, m: string)
    requires Exact(diffs, local, channels) && HasItem(diffs, m, rt)
    ensures ItemExact(diffs[m][rt], local, channels, rt, m)
  {
  }

  /** For all data, every item of the differences shows the local value and, for each of its
      channels, that channel's entry and whether it is believed. */
  lemma ItemsShow(diffs: Differences, local: LocalData, channels: seq<Channel>, rt: string, m: string, i: nat)
    requires Exact(diffs, local, channels) && HasItem(diffs, m, rt) && i < |channels|
    ensures ItemShown(diffs[m][rt], local, channels[i], rt, m)
  {
    ItemOf(diffs, local, channels, rt, m);
    ExactItemShown(diffs[m][rt], local, channels, rt, m, i);
  }

  ghost predicate ItemShown(item: Item, local: LocalData, ch: Channel, rt: string, m: string) {
    && item.current == (if HasLocal(local, rt, m) then Number(local[rt][m]) else Null)
    && (ch.name in item.upstreams ==>
          && ch.name in item.confidence
          && EntryShown(item.upstreams[ch.name], local, ch, rt, m)
          && (!item.confidence[ch.name] <==> MadeUp(ch, m)))
  }

  lemma ExactItemShown(item: Item, local: LocalData, channels: seq<Channel>, rt: string, m: string, i: nat)
    requires ItemExact(item, local, channels, rt, m) && i < |channels|
    ensures ItemShown(item, local, channels[i], rt, m)
  {
    CellShown(local, channels[i], rt, m);
    assert channels[i].name in item.upstreams ==> channels[i].name in item.confidence;
  }

  /** A channel that has an actual value of its own somewhere: the ones that are listed. */
  ghost predicate ShowsSomewhere(local: LocalData, ch: Channel) {
    exists rt, m :: ShowsOwnValue(local, ch, rt, m)
  }

  ghost predicate ShowsOwnValue(local: LocalData, ch: Channel, rt: string, m: string) {
    && (rt == "model_ratio" || rt == "completion_ratio" || rt == "cache_ratio" || rt == "model_price")
    && HasUpstream(ch, rt, m) && ch.data[rt][m] != Null && ch.data[rt][m] != Text("same")
    && (HasLocal(local, rt, m) && ch.data[rt][m].Number? ==> Apart(ch.data[rt][m].r, local[rt][m]))
  }

  /** ... and which channels an item lists. */
  lemma ItemsList(diffs: Differences, local: LocalData, channels: seq<Channel>, rt: string, m: string, i: nat)
    requires Exact(diffs, local, channels) && HasItem(diffs, m, rt) && i < |channels|
    ensures channels[i].name in diffs[m][rt].upstreams <==> ShowsSomewhere(local, channels[i])
  {
    ItemOf(diffs, local, channels, rt, m);
    OwnValuesSomewhere(local, channels[i]);
  }

  lemma OwnValuesSomewhere(local: LocalData, ch: Channel)
    ensures DiffersSomewhere(local, ch) <==> ShowsSomewhere(local, ch)
  {
    if rt, m :| DiffersAt(local, ch, rt, m) {
      OwnValueShown(local, ch, rt, m);
    }
    if rt, m :| ShowsOwnValue(local, ch, rt, m) {
      OwnValueShown(local, ch, rt, m);
    }
  }

  /** The entry of the channel is not "same". */
  ghost predicate EntryDisagrees(local: LocalData, ch: Channel, rt: string, m: string) {
    if !HasUpstream(ch, rt, m) then HasLocal(local, rt, m)
    else
      var value := ch.data[rt][m];
      value != Text("same") && if HasLocal(local, rt, m) then value.Number? ==> Apart(value.r, local[rt][m]) else value != Null
  }

  /** The channel gives reason for an item: a value that is not the local one, or any value
      where there is no local one. */
  ghost predicate GivesReason(local: LocalData, ch: Channel, rt: string, m: string) {
    HasUpstream(ch, rt, m) && (HasLocal(local, rt, m) && ch.data[rt][m].Number? ==> Apart(ch.data[rt][m].r, local[rt][m]))
  }

  ghost predicate SomeReason(local: LocalData, channels: seq<Channel>, rt: string, m: string) {
    exists i :: 0 <= i < |channels| && GivesReason(local, channels[i], rt, m)
  }

  ghost predicate ListedDisagrees(local: LocalData, channels: seq<Channel>, rt: string, m: string) {
    exists i :: 0 <= i < |channels| && ShowsSomewhere(local, channels[i]) && EntryDisagrees(local, channels[i], rt, m)
  }

  lemma EntryDisagreesExactly(local: LocalData, ch: Channel, rt: string, m: string)
    ensures CellAt(local, ch, rt, m) != SAME <==> EntryDisagrees(local, ch, rt, m)
  {
  }

  lemma IncludedExactly(local: LocalData, channels: seq<Channel>, rt: string, m: string)
    ensures Included(local, channels, rt, m) <==> SomeReason(local, channels, rt, m)
  {
    var l := LocalValue(local, rt, m);
    if Included(local, channels, rt, m) {
      var i :| 0 <= i < |channels| &&
               if l != Null then Differs(l, UpstreamValue(channels[i], rt, m)) else UpstreamValue(channels[i], rt, m).Some?;
      assert GivesReason(local, channels[i], rt, m);
    }
    if i :| 0 <= i < |channels| && GivesReason(local, channels[i], rt, m) {
      assert UpstreamValue(channels[i], rt, m).Some?;
      assert l != Null ==> Differs(l, UpstreamValue(channels[i], rt, m));
    }
  }

  lemma ItemWhen(diffs: Differences, local: LocalData, channels: seq<Channel>, rt: string, m: string)
    requires Exact(diffs, local, channels)
    ensures HasItem(diffs, m, rt) <==> rt in RATIO_TYPES && Included(local, channels, rt, m) && SomeoneDisagrees(local, channels, rt, m)
  {
  }

  /** One of the four ratio types, for which some channel gives reason and some listed
      channel disagrees. */
  ghost predicate ItemExpected(local: LocalData, channels: seq<Channel>, rt: string, m: string) {
    && (rt == "model_ratio" || rt == "completion_ratio" || rt == "cache_ratio" || rt == "model_price")
    && SomeReason(local, channels, rt, m) && ListedDisagrees(local, channels, rt, m)
  }

  lemma ExpectedExactly(local: LocalData, channels: seq<Channel>, rt: string, m: string)
    ensures ItemExpected(local, channels, rt, m) <==>
            rt in RATIO_TYPES && Included(local, channels, rt, m) && SomeoneDisagrees(local, channels, rt, m)
  {
    IncludedExactly(local, channels, rt, m);
    DisagreementExactly(local, channels, rt, m);
  }

  /** For all data there is an item exactly where one is expected. */
  lemma ItemsExist(diffs: Differences, local: LocalData, channels: seq<Channel>, rt: string, m: string)
    requires Exact(diffs, local, channels)
    ensures HasItem(diffs, m, rt) <==> ItemExpected(local, channels, rt, m)
  {
    ItemWhen(diffs, local, channels, rt, m);
    ExpectedExactly(local, channels, rt, m);
  }

  lemma DisagreementExactly(local: LocalData, channels: seq<Channel>, rt: string, m: string)
    ensures SomeoneDisagrees(local, channels, rt, m) <==> ListedDisagrees(local, channels, rt, m)
  {
    forall i | 0 <= i < |channels|
      ensures DiffersSomewhere(local, channels[i]) <==> ShowsSomewhere(local, channels[i])
      ensures CellAt(local, channels[i], rt, m) != SAME <==> EntryDisagrees(local, channels[i], rt, m)
    {
      OwnValuesSomewhere(local, channels[i]);
      EntryDisagreesExactly(local, channels[i], rt, m);
    }
  }

  // ---------------------------------------------------------------------
  // Numeric data
  // ---------------------------------------------------------------------

  ghost predicate Numeric(channels: seq<Channel>) {
    forall i, rt, m :: 0 <= i < |channels| && HasUpstream(channels[i], rt, m) ==> channels[i].data[rt][m].Number?
  }

  /** The channel has a value and the local one is missing or at least the tolerance away. */
  ghost predicate FarFromLocal(local: LocalData, ch: Channel, rt: string, m: string) {
    && (rt == "model_ratio" || rt == "completion_ratio" || rt == "cache_ratio" || rt == "model_price")
    && HasUpstream(ch, rt, m) && ch.data[rt][m].Number?
    && (HasLocal(local, rt, m) ==> Apart(ch.data[rt][m].r, local[rt][m]))
  }

  lemma NumericDiffers(local: LocalData, channels: seq<Channel>, i: nat, rt: string, m: string)
    requires Numeric(channels) && i < |channels|
    ensures DiffersAt(local, channels[i], rt, m) <==> FarFromLocal(local, channels[i], rt, m)
  {
  }

  ghost predicate FarSomewhere(local: LocalData, ch: Channel) {
    exists rt, m :: FarFromLocal(local, ch, rt, m)
  }

  lemma NumericDiffersSomewhere(local: LocalData, channels: seq<Channel>, i: nat)
    requires Numeric(channels) && i < |channels|
    ensures DiffersSomewhere(local, channels[i]) <==> FarSomewhere(local, channels[i])
  {
    if rt, m :| DiffersAt(local, channels[i], rt, m) {
      NumericDiffers(local, channels, i, rt, m);
    }
    if rt, m :| FarFromLocal(local, channels[i], rt, m) {
      NumericDiffers(local, channels, i, rt, m);
    }
  }

  /** For numeric data the pruning pass drops channels but never an item. */
  lemma NumericNeverDropped(local: LocalData, channels: seq<Channel>, rt: string, m: string)
    requires Numeric(channels) && rt in RATIO_TYPES
    ensures Included(local, channels, rt, m) <==> exists i :: 0 <= i < |channels| && FarFromLocal(local, channels[i], rt, m)
    ensures Included(local, channels, rt, m) ==> SomeoneDisagrees(local, channels, rt, m)
  {
    if Included(local, channels, rt, m) {
      var l := LocalValue(local, rt, m);
      var i :| 0 <= i < |channels| &&
               if l != Null then Differs(l, UpstreamValue(channels[i], rt, m)) else UpstreamValue(channels[i], rt, m).Some?;
      assert FarFromLocal(local, channels[i], rt, m);
      assert DiffersAt(local, channels[i], rt, m);
    }
    if i :| 0 <= i < |channels| && FarFromLocal(local, channels[i], rt, m) {
      DifferenceIncluded(local, channels, i, rt, m);
    }
  }

  /** For numeric data: an item exactly when some channel has a value and the local
      value is missing or at least the tolerance away; its channels are exactly those
      with such a difference somewhere. */
  lemma NumericDifferences(diffs: Differences, local: LocalData, channels: seq<Channel>, rt: string, m: string)
    requires Exact(diffs, local, channels) && Numeric(channels)
    ensures HasItem(diffs, m, rt) <==> exists i :: 0 <= i < |channels| && FarFromLocal(local, channels[i], rt, m)
    ensures HasItem(diffs, m, rt) ==> diffs[m][rt].upstreams.Keys == diffs[m][rt].confidence.Keys
    ensures HasItem(diffs, m, rt) ==> forall i :: 0 <= i < |channels| ==>
              (channels[i].name in diffs[m][rt].upstreams <==> FarSomewhere(local, channels[i]))
  {
    if rt in RATIO_TYPES {
      NumericNeverDropped(local, channels, rt, m);
    }
    if HasItem(diffs, m, rt) {
      assert ItemExact(diffs[m][rt], local, channels, rt, m);
      forall i | 0 <= i < |channels| ensures channels[i].name in diffs[m][rt].upstreams <==> FarSomewhere(local, channels[i]) {
        NumericDiffersSomewhere(local, channels, i);
      }
    }
  }

  /** A JSON null upstream makes an item that the pruning pass does drop. */
  lemma NullItemDropped()
    ensures var channels := [Channel("c", map["model_ratio" := map["m" := Null]])];
            Included(map[], channels, "model_ratio", "m") && !SomeoneDisagrees(map[], channels, "model_ratio", "m")
  {
    var channels := [Channel("c", map["model_ratio" := map["m" := Null]])];
    assert UpstreamValue(channels[0], "model_ratio", "m").Some?;
  }
}
