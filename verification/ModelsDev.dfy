/** Comparison of ratios up to a tolerance (controller/ratio_sync.go), over the reals. */
module Tolerance {
  const EPSILON := 0.000000001

  predicate NearlyEqual(a: real, b: real) {
    if a > b then a - b < EPSILON else b - a < EPSILON
  }

  lemma NearlyEqualIsDistance(a: real, b: real)
    ensures NearlyEqual(a, b) <==> -0.000000001 < a - b < 0.000000001
    ensures NearlyEqual(a, b) <==> NearlyEqual(b, a)
  {
  }

  /** The tolerance test is not transitive. */
  lemma NearlyEqualNotTransitive()
    ensures NearlyEqual(0.0, 0.0000000006) && NearlyEqual(0.0000000006, 0.0000000012) && !NearlyEqual(0.0, 0.0000000012)
  {
  }
}

/** Strings in the order of Go's `<`, and the sorted keys of a map. */
module SortedNames {

  predicate Less(a: string, b: string) {
    if b == [] then false
    else if a == [] then true
    else a[0] < b[0] || (a[0] == b[0] && Less(a[1..], b[1..]))
  }

  /** The strings agree on `k` characters, and then the first ends or has the lower one. */
  predicate LowerAt(a: string, b: string, k: int) {
    0 <= k <= |a| && k < |b| && a[..k] == b[..k] && (k == |a| || a[k] < b[k])
  }

  /** The order compares the first character that differs; a beginning comes first. */
  lemma {:induction false} LessExact(a: string, b: string)
    ensures Less(a, b) <==> exists k :: LowerAt(a, b, k)
  {
    forall k | LowerAt(a, b, k) && k > 0 ensures a != [] && b != [] && a[0] == b[0] {
      assert a[0] == a[..k][0] && b[0] == b[..k][0];
    }
    if a == [] || b == [] || a[0] != b[0] {
      assert Less(a, b) <==> LowerAt(a, b, 0);
    } else {
      LessExact(a[1..], b[1..]);
      if Less(a, b) {
        var k :| LowerAt(a[1..], b[1..], k);
        assert a[..k + 1] == [a[0]] + a[1..][..k] && b[..k + 1] == [b[0]] + b[1..][..k];
        assert LowerAt(a, b, k + 1);
      }
      forall k | LowerAt(a, b, k) ensures Less(a, b) {
        assert k > 0;
        assert a[1..][..k - 1] == a[..k][1..] && b[1..][..k - 1] == b[..k][1..];
        assert LowerAt(a[1..], b[1..], k - 1);
      }
    }
  }

  lemma {:induction false} LessTotal(a: string, b: string)
    ensures Less(a, b) || Less(b, a) || a == b
  {
    if a != [] && b != [] && a[0] == b[0] {
      LessTotal(a[1..], b[1..]);
      assert a == [a[0]] + a[1..] && b == [b[0]] + b[1..];
    }
  }

  lemma {:induction false} LessTransitive(a: string, b: string, c: string)
    requires Less(a, b) && Less(b, c)
    ensures Less(a, c)
  {
    if a != [] && a[0] == b[0] && b[0] == c[0] {
      LessTransitive(a[1..], b[1..], c[1..]);
    }
  }

  lemma {:induction false} LessIrreflexive(a: string)
    ensures !Less(a, a)
  {
    if a != [] {
      LessIrreflexive(a[1..]);
    }
  }

  ghost predicate Ascending(names: seq<string>) {
    forall i, j :: 0 <= i < j < |names| ==> Less(names[i], names[j])
  }

  function Members(names: seq<string>): set<string> {
    set n | n in names
  }

  /** The position at which a name keeps a list ascending. */
  method InsertSorted(names: seq<string>, name: string) returns (r: seq<string>)
    requires Ascending(names) && name !in names
    ensures Ascending(r) && Members(r) == Members(names) + {name}
  {
    var i := 0;
    while i < |names| && Less(names[i], name)
      invariant 0 <= i <= |names|
      invariant forall k :: 0 <= k < i ==> Less(names[k], name)
    {
      i := i + 1;
    }
    r := names[..i] + [name] + names[i..];
    forall k | i <= k < |names| ensures Less(name, names[k]) {
      LessTotal(names[i], name);
      if k > i {
        LessTransitive(name, names[i], names[k]);
      }
    }
    InsertedBetween(names, name, i);
  }

  lemma InsertedBetween(names: seq<string>, name: string, i: nat)
    requires Ascending(names) && i <= |names|
    requires forall k :: 0 <= k < i ==> Less(names[k], name)
    requires forall k :: i <= k < |names| ==> Less(name, names[k])
    ensures var r := names[..i] + [name] + names[i..]; Ascending(r) && Members(r) == Members(names) + {name}
  {
    var r := names[..i] + [name] + names[i..];
    assert r[i] == name && (forall k :: 0 <= k < i ==> r[k] == names[k]) && (forall k :: i < k < |r| ==> r[k] == names[k - 1]);
    forall x | x in names ensures x in r {
      var k :| 0 <= k < |names| && names[k] == x;
      assert k < i || r[k + 1] == x;
    }
  }

  /** The keys of a map, taken in an arbitrary order and sorted. */
  method SortStrings(names: set<string>) returns (r: seq<string>)
    ensures Ascending(r) && Members(r) == names
  {
    r := [];
    var rest := names;
    while rest != {}
      invariant rest <= names && Ascending(r) && Members(r) == names - rest
      decreases |rest|
    {
      var name :| name in rest;
      r := InsertSorted(r, name);
      rest := rest - {name};
    }
  }

  /** Sorting leaves no choice: an ascending list is determined by its members. */
  lemma {:induction false} AscendingUnique(a: seq<string>, b: seq<string>)
    requires Ascending(a) && Ascending(b) && Members(a) == Members(b)
    ensures a == b
    decreases |a|
  {
    assert forall i :: 0 <= i < |a| ==> a[i] in Members(b);
    assert forall i :: 0 <= i < |b| ==> b[i] in Members(a);
    if a != [] && b != [] {
      FirstIsLeast(a);
      FirstIsLeast(b);
      LessIrreflexive(a[0]);
      if Less(a[0], b[0]) && Less(b[0], a[0]) {
        LessTransitive(a[0], b[0], a[0]);
      }
      TailMembers(a);
      TailMembers(b);
      AscendingUnique(a[1..], b[1..]);
      assert a == [a[0]] + a[1..] && b == [b[0]] + b[1..];
    }
  }

  lemma FirstIsLeast(a: seq<string>)
    requires Ascending(a) && a != []
    ensures forall n :: n in a && n != a[0] ==> Less(a[0], n)
  {
  }

  lemma TailMembers(a: seq<string>)
    requires Ascending(a) && a != []
    ensures Members(a[1..]) == Members(a) - {a[0]}
  {
    LessIrreflexive(a[0]);
    forall n | n in Members(a) && n != a[0] ensures n in a[1..] {
      var i :| 0 <= i < |a| && a[i] == n;
      assert a[1..][i - 1] == n;
    }
    forall i | 0 < i < |a| ensures a[i] != a[0] {
      assert Less(a[0], a[i]);
    }
  }
}

/** The merge of models.dev prices (controller/ratio_sync.go): for every model name
    the providers are folded in name order, keeping the cheaper non-zero candidate
    unless the two are nearly equal. */
module ModelsDev {
  import opened Basics
  import opened Tolerance
  import opened SortedNames

  datatype Cost = Cost(input: Option<real>, output: Option<real>, cacheRead: Option<real>)

  datatype Candidate = Candidate(provider: string, input: real, output: Option<real>, cacheRead: Option<real>)

  /** Provider name to model name to cost. */
  type Catalogue = map<string, map<string, Cost>>

  const USD := 500.0
  const INPUT_COST_RATIO_BASE := 1000.0

  /** JSON has no NaN and no infinity. */
  predicate ValidCost(v: real) {
    v >= 0.0
  }

  /** A cost that can be turned into ratios. */
  predicate Usable(cost: Cost) {
    && cost.input.Some? && cost.input.value >= 0.0
    && (cost.output.Some? ==> cost.output.value >= 0.0)
    && (cost.input.value == 0.0 && cost.output.Some? ==> cost.output.value == 0.0)
  }

  /** There is a candidate for exactly the usable costs, with their prices; a negative cache
      price is left out. */
  function BuildCandidate(provider: string, cost: Cost): (r: Option<Candidate>)
    ensures r.Some? <==> Usable(cost)
    ensures r.Some? ==> r.value.provider == provider && Some(r.value.input) == cost.input && r.value.output == cost.output
    ensures r.Some? ==> (r.value.cacheRead.Some? <==> cost.cacheRead.Some? && cost.cacheRead.value >= 0.0)
    ensures r.Some? && r.value.cacheRead.Some? ==> r.value.cacheRead == cost.cacheRead
  {
    if cost.input.None? || !ValidCost(cost.input.value) then None
    else if cost.output.Some? && !ValidCost(cost.output.value) then None
    else if cost.input.value == 0.0 && cost.output.Some? && cost.output.value > 0.0 then None
    else Some(Candidate(provider, cost.input.value, cost.output,
                        if cost.cacheRead.Some? && ValidCost(cost.cacheRead.value) then cost.cacheRead else None))
  }

  predicate ShouldReplace(current: Candidate, next: Candidate) {
    var currentNonZero, nextNonZero := current.input > 0.0, next.input > 0.0;
    if currentNonZero != nextNonZero then nextNonZero
    else if nextNonZero && !NearlyEqual(next.input, current.input) then next.input < current.input
    else Less(next.provider, current.provider)
  }

  /** What a provider offers for a model. */
  function Offer(data: Catalogue, provider: string, model: string): Option<Candidate> {
    if provider in data && model in data[provider] then BuildCandidate(provider, data[provider][model]) else None
  }

  /** The choice after the given providers, in that order. */
  function Choice(data: Catalogue, providers: seq<string>, model: string): Option<Candidate> {
    if providers == [] then None
    else
      var current := Choice(data, providers[..|providers| - 1], model);
      var next := Offer(data, providers[|providers| - 1], model);
      if next.None? then current
      else if current.None? || ShouldReplace(current.value, next.value) then next
      else current
  }

  // ---------------------------------------------------------------------
  // The merge loop
  // ---------------------------------------------------------------------

  ghost predicate SelectedAre(selected: map<string, Candidate>, data: Catalogue, providers: seq<string>) {
    forall m :: IsChoice(selected, data, providers, m)
  }

  ghost predicate IsChoice(selected: map<string, Candidate>, data: Catalogue, providers: seq<string>, m: string) {
    && (m in selected <==> Choice(data, providers, m).Some?)
    && (m in selected ==> selected[m] == Choice(data, providers, m).value)
  }

  /** The candidates of one provider, merged into those selected so far. */
  method MergeProvider(selected: map<string, Candidate>, data: Catalogue, before: seq<string>, provider: string)
    returns (r: map<string, Candidate>)
    requires provider in data && SelectedAre(selected, data, before)
    ensures SelectedAre(r, data, before + [provider])
  {
    r := selected;
    ghost var after := before + [provider];
    assert after[..|after| - 1] == before;
    var models := data[provider];
    if |models| == 0 {
      forall m ensures IsChoice(r, data, after, m) {
        assert IsChoice(selected, data, before, m);
      }
      return;
    }
    var names := SortStrings(models.Keys);
    for i := 0 to |names|
      invariant forall m :: m !in names[..i] ==> IsChoice(r, data, before, m)
      invariant forall m :: m in names[..i] ==> IsChoice(r, data, after, m)
    {
      var name := names[i];
      NotYetSeen(names, i);
      assert names[i] in Members(names);
      assert names[..i + 1] == names[..i] + [name];
      MergedIsChoice(r, data, before, provider, name);
      r := MergeModel(r, provider, name, models[name]);
    }
    assert names[..|names|] == names;
    forall m ensures IsChoice(r, data, after, m) {
      assert m in names <==> m in Members(names);
      assert m !in names ==> IsChoice(r, data, before, m);
    }
  }

  /** One model of a provider against what is selected so far. */
  function Merged(selected: map<string, Candidate>, name: string, candidate: Option<Candidate>): map<string, Candidate> {
    if candidate.Some? && (name !in selected || ShouldReplace(selected[name], candidate.value))
    then selected[name := candidate.value]
    else selected
  }

  method MergeModel(selected: map<string, Candidate>, provider: string, name: string, cost: Cost)
    returns (r: map<string, Candidate>)
    ensures r == Merged(selected, name, BuildCandidate(provider, cost))
  {
    r := selected;
    var candidate := BuildCandidate(provider, cost);
    if candidate.None? {
      return;
    }
    if name !in r || ShouldReplace(r[name], candidate.value) {
      r := r[name := candidate.value];
    }
  }

  lemma MergedIsChoice(selected: map<string, Candidate>, data: Catalogue, before: seq<string>, provider: string, name: string)
    requires provider in data && name in data[provider] && IsChoice(selected, data, before, name)
    ensures IsChoice(Merged(selected, name, Offer(data, provider, name)), data, before + [provider], name)
  {
    var after := before + [provider];
    assert after[..|after| - 1] == before;
  }

  lemma NotYetSeen(names: seq<string>, i: nat)
    requires Ascending(names) && i < |names|
    ensures names[i] !in names[..i]
  {
    LessIrreflexive(names[i]);
  }

  /** The providers' candidates merged in name order, and that order. */
  method Select(data: Catalogue) returns (selected: map<string, Candidate>, providers: seq<string>)
    ensures Ascending(providers) && Members(providers) == data.Keys
    ensures SelectedAre(selected, data, providers)
  {
    var names := SortStrings(data.Keys);
    selected := map[];
    for i := 0 to |names|
      invariant SelectedAre(selected, data, names[..i])
    {
      assert names[i] in Members(names);
      selected := MergeProvider(selected, data, names[..i], names[i]);
      assert names[..i + 1] == names[..i] + [names[i]];
    }
    assert names[..|names|] == names;
    providers := names;
  }

  /** Whatever order the maps are iterated in, the selection is the same. */
  lemma SelectionDetermined(data: Catalogue, p: seq<string>, s: map<string, Candidate>, q: seq<string>, t: map<string, Candidate>)
    requires Ascending(p) && Members(p) == data.Keys && SelectedAre(s, data, p)
    requires Ascending(q) && Members(q) == data.Keys && SelectedAre(t, data, q)
    ensures s == t
  {
    AscendingUnique(p, q);
    forall m ensures m in s <==> m in t
             ensures m in s ==> s[m] == t[m]
    {
      assert IsChoice(s, data, p, m) && IsChoice(t, data, q, m);
    }
  }

  // ---------------------------------------------------------------------
  // What the merge selects
  // ---------------------------------------------------------------------

  /** The choice comes from one of the providers. */
  lemma {:induction false} ChoiceIsOffered(data: Catalogue, providers: seq<string>, model: string)
    requires Choice(data, providers, model).Some?
    ensures Choice(data, providers, model).value.provider in providers
    ensures Offer(data, Choice(data, providers, model).value.provider, model) == Choice(data, providers, model)
  {
    var front := providers[..|providers| - 1];
    if Choice(data, front, model).Some? {
      ChoiceIsOffered(data, front, model);
    }
  }

  lemma LastIsGreatest(providers: seq<string>, provider: string)
    requires Ascending(providers) && providers != [] && provider in providers[..|providers| - 1]
    ensures !Less(providers[|providers| - 1], provider)
  {
    var last := providers[|providers| - 1];
    var i :| 0 <= i < |providers| - 1 && providers[i] == provider;
    assert Less(provider, last);
    if Less(last, provider) {
      LessTransitive(last, provider, last);
      LessIrreflexive(last);
    }
  }

  /** `best` beats `other` up to the tolerance: a non-zero price is preferred to a
      zero one, and exceeds no other non-zero price by the tolerance or more. */
  predicate Beats(best: Candidate, other: Candidate) {
    other.input > 0.0 ==> best.input > 0.0 && best.input < other.input + EPSILON
  }

  /** The merge picks a candidate whenever there is one, non-zero whenever possible,
      and within the tolerance of the cheapest, although the tolerance test is not
      transitive: in name order a later provider only wins by a clear margin. */
  lemma {:induction false} ChoiceIsCheapest(data: Catalogue, providers: seq<string>, model: string, provider: string)
    requires Ascending(providers) && provider in providers && Offer(data, provider, model).Some?
    ensures Choice(data, providers, model).Some?
    ensures Beats(Choice(data, providers, model).value, Offer(data, provider, model).value)
  {
    var n := |providers| - 1;
    var front, last := providers[..n], providers[n];
    var current := Choice(data, front, model);
    if current.Some? {
      ChoiceIsOffered(data, front, model);
      LastIsGreatest(providers, current.value.provider);
    }
    if provider != last {
      ChoiceIsCheapest(data, front, model, provider);
    }
  }

  /** ... but not always the cheapest, as the documentation has it: a nearly equal
      price of an earlier provider stands. */
  lemma NotAlwaysCheapest()
    ensures var data := map["a" := map["m" := Cost(Some(1.0000000005), None, None)],
                            "b" := map["m" := Cost(Some(1.0), None, None)]];
            && Choice(data, ["a", "b"], "m") == Some(Candidate("a", 1.0000000005, None, None))
            && Offer(data, "b", "m") == Some(Candidate("b", 1.0, None, None))
  {
    assert ["a", "b"][..1] == ["a"] && ["a"][..0] == [];
  }

  /** Provider `k` is the first with the least non-zero price. */
  ghost predicate CheapestAt(data: Catalogue, providers: seq<string>, model: string, k: nat) {
    && k < |providers| && Offer(data, providers[k], model).Some? && Offer(data, providers[k], model).value.input > 0.0
    && forall j :: 0 <= j < |providers| && j != k ==> Dearer(data, model, providers[j], providers[k], j < k)
  }

  predicate Dearer(data: Catalogue, model: string, other: string, cheapest: string, strictly: bool)
    requires Offer(data, cheapest, model).Some?
  {
    var o, c := Offer(data, other, model), Offer(data, cheapest, model).value;
    o.Some? && o.value.input > 0.0 ==> c.input < o.value.input || (!strictly && c.input == o.value.input)
  }

  /** When the merge reaches provider `k`, it holds a candidate with a nearly equal price. */
  predicate Shadowed(data: Catalogue, providers: seq<string>, model: string, k: nat)
    requires k < |providers| && Offer(data, providers[k], model).Some?
  {
    var current := Choice(data, providers[..k], model);
    current.Some? && current.value.input > 0.0 &&
    NearlyEqual(Offer(data, providers[k], model).value.input, current.value.input)
  }

  /** The first of the cheapest wins if and only if it is not shadowed; otherwise what
      the merge held at that point stays. */
  lemma {:induction false} CheapestExactlyWhenNotShadowed(data: Catalogue, providers: seq<string>, model: string, k: nat)
    requires Ascending(providers) && CheapestAt(data, providers, model, k)
    ensures var best, shadow := Offer(data, providers[k], model), Choice(data, providers[..k], model);
            && Choice(data, providers, model) == (if Shadowed(data, providers, model, k) then shadow else best)
            && (Shadowed(data, providers, model, k) ==> best.value.input < shadow.value.input < best.value.input + EPSILON)
    decreases |providers|
  {
    var n := |providers| - 1;
    var front, last := providers[..n], providers[n];
    var current := Choice(data, front, model);
    if current.Some? {
      ChoiceIsOffered(data, front, model);
      LastIsGreatest(providers, current.value.provider);
      var j :| 0 <= j < |front| && front[j] == current.value.provider;
      assert j != k ==> Dearer(data, model, providers[j], providers[k], j < k);
    }
    if k < n {
      assert front[..k] == providers[..k];
      forall j | 0 <= j < |front| && j != k ensures Dearer(data, model, front[j], front[k], j < k) {
        assert Dearer(data, model, providers[j], providers[k], j < k);
      }
      CheapestExactlyWhenNotShadowed(data, front, model, k);
      assert Dearer(data, model, last, providers[k], false);
    }
  }

  // ---------------------------------------------------------------------
  // The conversion to ratios
  // ---------------------------------------------------------------------

  function ModelRatio(c: Candidate): real {
    if c.input == 0.0 then 0.0 else c.input * USD / INPUT_COST_RATIO_BASE
  }

  function OverInput(c: Candidate, cost: Option<real>): real
    requires c.input != 0.0 && cost.Some?
  {
    cost.value / c.input
  }

  /** The ratios are the ones the documentation gives: half the input cost, and output
      and cache costs relative to the input cost. */
  lemma RatiosMeanCosts(c: Candidate)
    requires c.input >= 0.0
    ensures ModelRatio(c) * 2.0 == c.input
    ensures c.input != 0.0 && c.output.Some? ==> OverInput(c, c.output) * c.input == c.output.value
    ensures c.input != 0.0 && c.cacheRead.Some? ==> OverInput(c, c.cacheRead) * c.input == c.cacheRead.value
  {
  }

  function ModelRatios(selected: map<string, Candidate>, done: set<string>): map<string, real> {
    map m | m in selected && m in done :: ModelRatio(selected[m])
  }

  function CompletionRatios(selected: map<string, Candidate>, done: set<string>): map<string, real> {
    map m | m in selected && m in done && selected[m].input != 0.0 && selected[m].output.Some? ::
      OverInput(selected[m], selected[m].output)
  }

  function CacheRatios(selected: map<string, Candidate>, done: set<string>): map<string, real> {
    map m | m in selected && m in done && selected[m].input != 0.0 && selected[m].cacheRead.Some? ::
      OverInput(selected[m], selected[m].cacheRead)
  }

  lemma RatiosStep(selected: map<string, Candidate>, done: set<string>, name: string)
    requires name in selected && name !in done
    ensures var c, next := selected[name], done + {name};
            && ModelRatios(selected, next) == ModelRatios(selected, done)[name := ModelRatio(c)]
            && CompletionRatios(selected, next) ==
               (if c.input != 0.0 && c.output.Some? then CompletionRatios(selected, done)[name := OverInput(c, c.output)]
                else CompletionRatios(selected, done))
            && CacheRatios(selected, next) ==
               (if c.input != 0.0 && c.cacheRead.Some? then CacheRatios(selected, done)[name := OverInput(c, c.cacheRead)]
                else CacheRatios(selected, done))
  {
  }

  /** The three ratio maps, before rounding.  A zero-priced model gets ratio 0 and
      nothing is divided by its price. */
  method ToRatios(selected: map<string, Candidate>)
    returns (modelRatio: map<string, real>, completionRatio: map<string, real>, cacheRatio: map<string, real>)
    ensures modelRatio == ModelRatios(selected, selected.Keys)
    ensures completionRatio == CompletionRatios(selected, selected.Keys)
    ensures cacheRatio == CacheRatios(selected, selected.Keys)
  {
    modelRatio, completionRatio, cacheRatio := map[], map[], map[];
    var rest := selected.Keys;
    ghost var done: set<string> := {};
    while rest != {}
      invariant done + rest == selected.Keys && done !! rest
      invariant modelRatio == ModelRatios(selected, done)
      invariant completionRatio == CompletionRatios(selected, done)
      invariant cacheRatio == CacheRatios(selected, done)
      decreases |rest|
    {
      var name :| name in rest;
      var candidate := selected[name];
      RatiosStep(selected, done, name);
      rest := rest - {name};
      done := done + {name};
      if candidate.input == 0.0 {
        modelRatio := modelRatio[name := 0.0];
        continue;
      }
      modelRatio := modelRatio[name := candidate.input * USD / INPUT_COST_RATIO_BASE];
      if candidate.output.Some? {
        completionRatio := completionRatio[name := candidate.output.value / candidate.input];
      }
      if candidate.cacheRead.Some? {
        cacheRatio := cacheRatio[name := candidate.cacheRead.value / candidate.input];
      }
    }
    assert done == selected.Keys;
  }

  datatype Ratios = Ratios(model: map<string, real>, completion: map<string, real>, cache: map<string, real>)

  /** A provider has a usable cost for the model. */
  ghost predicate OfferedBy(data: Catalogue, model: string, p: string) {
    p in data && model in data[p] && Usable(data[p][model])
  }

  ghost predicate Offered(data: Catalogue, model: string) {
    exists p :: OfferedBy(data, model, p)
  }

  /** The ratios of a model come from the costs of provider `p`: the ratio is half the input
      cost, and completion and cache ratio times the input cost are the output and the cache
      cost, present exactly where these are usable.  No other non-zero input cost is lower
      by the tolerance or more. */
  ghost predicate PricedBy(r: Ratios, data: Catalogue, model: string, p: string) {
    && OfferedBy(data, model, p)
    && var cost := data[p][model];
       var input := cost.input.value;
       && model in r.model && r.model[model] * 2.0 == input
       && (model in r.completion <==> input > 0.0 && cost.output.Some?)
       && (model in r.completion ==> r.completion[model] * input == cost.output.value)
       && (model in r.cache <==> input > 0.0 && cost.cacheRead.Some? && cost.cacheRead.value >= 0.0)
       && (model in r.cache ==> r.cache[model] * input == cost.cacheRead.value)
       && forall q :: OfferedBy(data, model, q) && data[q][model].input.value > 0.0 ==>
            input > 0.0 && input < data[q][model].input.value + 0.000000001
  }

  ghost predicate Priced(r: Ratios, data: Catalogue, model: string) {
    exists p :: PricedBy(r, data, model, p)
  }

  /** The selection prices every offered model. */
  lemma SelectionPrices(data: Catalogue, providers: seq<string>, selected: map<string, Candidate>, model: string)
    requires Ascending(providers) && Members(providers) == data.Keys && SelectedAre(selected, data, providers)
    ensures model in selected <==> Offered(data, model)
    ensures model in selected ==>
              Priced(Ratios(ModelRatios(selected, selected.Keys), CompletionRatios(selected, selected.Keys),
                            CacheRatios(selected, selected.Keys)), data, model)
  {
    assert IsChoice(selected, data, providers, model);
    forall q | OfferedBy(data, model, q)
      ensures model in selected
      ensures Beats(selected[model], Offer(data, q, model).value)
    {
      assert q in Members(providers);
      ChoiceIsCheapest(data, providers, model, q);
    }
    if model in selected {
      ChoiceIsOffered(data, providers, model);
      assert OfferedBy(data, model, selected[model].provider);
      CandidatePrices(data, selected, model);
    }
  }

  /** The ratios of a selected offer, in terms of the costs. */
  lemma CandidatePrices(data: Catalogue, selected: map<string, Candidate>, model: string)
    requires model in selected && OfferedBy(data, model, selected[model].provider)
    requires Offer(data, selected[model].provider, model) == Some(selected[model])
    requires forall q :: OfferedBy(data, model, q) ==> Beats(selected[model], Offer(data, q, model).value)
    ensures PricedBy(Ratios(ModelRatios(selected, selected.Keys), CompletionRatios(selected, selected.Keys),
                            CacheRatios(selected, selected.Keys)), data, model, selected[model].provider)
  {
    RatiosMeanCosts(selected[model]);
    forall q | OfferedBy(data, model, q) && data[q][model].input.value > 0.0
      ensures selected[model].input > 0.0 && selected[model].input < data[q][model].input.value + 0.000000001
    {
      assert Beats(selected[model], Offer(data, q, model).value);
    }
  }

  /** `convertModelsDevToRatioData` after decoding: an error exactly when there is no
      usable offer, otherwise ratios for exactly the offered models. */
  method Convert(data: Catalogue) returns (r: Option<Ratios>)
    ensures r.None? <==> forall m :: !Offered(data, m)
    ensures r.Some? ==> forall m :: m in r.value.model <==> Offered(data, m)
    ensures r.Some? ==> forall m :: m in r.value.model ==> Priced(r.value, data, m)
  {
    if |data| == 0 {
      return None;
    }
    var selected, providers := Select(data);
    forall m
      ensures m in selected <==> Offered(data, m)
      ensures m in selected ==>
                Priced(Ratios(ModelRatios(selected, selected.Keys), CompletionRatios(selected, selected.Keys),
                              CacheRatios(selected, selected.Keys)), data, m)
    {
      SelectionPrices(data, providers, selected, m);
    }
    if |selected| == 0 {
      return None;
    }
    var modelRatio, completionRatio, cacheRatio := ToRatios(selected);
    r := Some(Ratios(modelRatio, completionRatio, cacheRatio));
    ghost var some :| some in selected;
  }
}
