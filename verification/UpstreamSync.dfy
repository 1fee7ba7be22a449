/** Reconciling a channel's models with its upstream
    (controller/channel_upstream_update.go): detecting additions and removals,
    keeping them as pending lists, and applying a selection of them. */
module UpstreamSync {
  import opened Basics
  import opened TextLists
  import opened ModelNames

  const REGEX_PREFIX := "regex:"

  /** Regular expressions are those of the Go library: pattern, then name; an invalid
      pattern matches nothing. */
  type Matcher = (string, string) -> bool

  /** The stored channel: the comma-separated models and the update settings. */
  datatype Channel = Channel(
    models: string,
    autoSync: bool,
    lastCheckTime: int,
    detected: seq<string>,
    removed: seq<string>,
    ignored: seq<string>)

  function LocalModels(c: Channel): seq<string> {
    Normalize(Items(c.models, ','))
  }

  // ---------------------------------------------------------------------
  // Detection
  // ---------------------------------------------------------------------

  predicate Covers(entry: string, m: string, matches: Matcher) {
    if |entry| >= |REGEX_PREFIX| && entry[..|REGEX_PREFIX|] == REGEX_PREFIX
    then matches(TrimSpace(entry[|REGEX_PREFIX|..]), m)
    else entry == m
  }

  predicate Ignores(ignored: seq<string>, m: string, matches: Matcher) {
    exists i :: 0 <= i < |ignored| && Covers(ignored[i], m, matches)
  }

  function Addable(local: seq<string>, ignored: seq<string>, mapping: map<string, string>, matches: Matcher): string -> bool {
    m => m !in local && m !in mapping.Values && !Ignores(ignored, m, matches)
  }

  function Removable(upstream: seq<string>, mapping: map<string, string>): string -> bool {
    m => m !in mapping.Keys && m !in upstream
  }

  /** `collectPendingUpstreamModelChangesFromModels`: what to add and what to remove. */
  function PendingAdd(local: seq<string>, upstream: seq<string>, ignored: seq<string>, mapping: map<string, string>, matches: Matcher): seq<string> {
    Normalize(Filter(Normalize(upstream), Addable(Normalize(local), Normalize(ignored), mapping, matches)))
  }

  function PendingRemove(local: seq<string>, upstream: seq<string>, mapping: map<string, string>): seq<string> {
    Normalize(Filter(Normalize(local), Removable(Normalize(upstream), mapping)))
  }

  /** The proposals in terms of membership; redirect targets are never added, redirect
      sources never removed. */
  lemma PendingExact(local: seq<string>, upstream: seq<string>, ignored: seq<string>, mapping: map<string, string>, matches: Matcher)
    ensures Clean(PendingAdd(local, upstream, ignored, mapping, matches))
    ensures Clean(PendingRemove(local, upstream, mapping))
    ensures forall m :: m in PendingAdd(local, upstream, ignored, mapping, matches) <==>
              m in Normalize(upstream) && m !in Normalize(local) && m !in mapping.Values && !Ignores(Normalize(ignored), m, matches)
    ensures forall m :: m in PendingRemove(local, upstream, mapping) <==>
              m in Normalize(local) && m !in mapping.Keys && m !in Normalize(upstream)
  {
    var addable := Addable(Normalize(local), Normalize(ignored), mapping, matches);
    var removable := Removable(Normalize(upstream), mapping);
    NormalizeIsClean(upstream);
    NormalizeIsClean(local);
    FilterClean(Normalize(upstream), addable);
    FilterClean(Normalize(local), removable);
    NormalizeClean(Filter(Normalize(upstream), addable));
    NormalizeClean(Filter(Normalize(local), removable));
  }

  // ---------------------------------------------------------------------
  // The check step and the apply step
  // ---------------------------------------------------------------------

  datatype CheckInput = CheckInput(
    now: int,
    minInterval: int,
    force: bool,
    allowAutoApply: bool,
    fetched: Option<seq<string>>,   // None: the upstream could not be read
    mapping: map<string, string>)

  datatype CheckResult = CheckResult(channel: Channel, modelsChanged: bool, autoAdded: int)

  /** `checkAndPersistChannelUpstreamModelUpdates`, when its save succeeds. */
  function Checked(c: Channel, input: CheckInput, matches: Matcher): CheckResult {
    if !input.force && c.lastCheckTime > 0 && input.now - c.lastCheckTime < input.minInterval then
      CheckResult(c, false, 0)
    else if input.fetched.None? then
      CheckResult(c.(lastCheckTime := input.now), false, 0)
    else
      var local := Items(c.models, ',');
      var add := PendingAdd(local, input.fetched.value, c.ignored, input.mapping, matches);
      var remove := PendingRemove(local, input.fetched.value, input.mapping);
      if input.allowAutoApply && c.autoSync && add != [] then
        var origin := Normalize(local);
        var merged := Merge(origin, add);
        if |merged| > |origin| then
          CheckResult(c.(models := Join(merged, ','), lastCheckTime := input.now, detected := [], removed := remove),
                      true, |merged| - |origin|)
        else
          CheckResult(c.(lastCheckTime := input.now, detected := [], removed := remove), false, 0)
      else
        CheckResult(c.(lastCheckTime := input.now, detected := add, removed := remove), false, 0)
  }

  datatype Selection = Selection(add: seq<string>, ignore: seq<string>, remove: seq<string>)

  /** Only what is pending can be selected; an addition also outweighs a removal. */
  function TakenAdd(c: Channel, chosen: Selection): seq<string> {
    Intersect(chosen.add, Normalize(c.detected))
  }

  function TakenIgnore(c: Channel, chosen: Selection): seq<string> {
    Intersect(chosen.ignore, Normalize(c.detected))
  }

  function TakenRemove(c: Channel, chosen: Selection): seq<string> {
    Subtract(Intersect(chosen.remove, Normalize(c.removed)), TakenAdd(c, chosen))
  }

  function NextModels(c: Channel, chosen: Selection): seq<string> {
    ApplySelected(LocalModels(c), TakenAdd(c, chosen), TakenRemove(c, chosen))
  }

  function NextIgnored(c: Channel, chosen: Selection): seq<string> {
    var merged := Merge(c.ignored, TakenIgnore(c, chosen));
    if TakenAdd(c, chosen) != [] then Subtract(merged, TakenAdd(c, chosen)) else merged
  }

  /** `applyChannelUpstreamModelUpdates`, when its save succeeds. */
  function Applied(c: Channel, chosen: Selection, now: int): Channel {
    Channel(
      if NextModels(c, chosen) != LocalModels(c) then Join(NextModels(c, chosen), ',') else c.models,
      c.autoSync,
      now,
      Subtract(Normalize(c.detected), TakenAdd(c, chosen) + TakenIgnore(c, chosen)),
      Subtract(Normalize(c.removed), TakenRemove(c, chosen)),
      NextIgnored(c, chosen))
  }

  class UpstreamChannel {
    var models: string
    var autoSync: bool
    var lastCheckTime: int
    var detected: seq<string>
    var removed: seq<string>
    var ignored: seq<string>

    function State(): Channel
      reads this
    {
      Channel(models, autoSync, lastCheckTime, detected, removed, ignored)
    }

    constructor (models: string, autoSync: bool, ignored: seq<string>)
      ensures State() == Channel(models, autoSync, 0, [], [], ignored)
    {
      this.models, this.autoSync, this.ignored := models, autoSync, ignored;
      lastCheckTime, detected, removed := 0, [], [];
    }

    method Check(input: CheckInput, matches: Matcher) returns (modelsChanged: bool, autoAdded: int)
      modifies this
      ensures CheckResult(State(), modelsChanged, autoAdded) == Checked(old(State()), input, matches)
    {
      modelsChanged, autoAdded := false, 0;
      if !input.force {
        if lastCheckTime > 0 && input.now - lastCheckTime < input.minInterval {
          return;
        }
      }
      lastCheckTime := input.now;
      if input.fetched.None? {
        return;
      }
      var local := Items(models, ',');
      var pendingAdd := PendingAdd(local, input.fetched.value, ignored, input.mapping, matches);
      var pendingRemove := PendingRemove(local, input.fetched.value, input.mapping);
      if input.allowAutoApply && autoSync && |pendingAdd| > 0 {
        modelsChanged, autoAdded := Synchronize(Normalize(local), pendingAdd);
        detected := [];
      } else {
        detected := pendingAdd;
      }
      removed := pendingRemove;
    }

    /** The pending additions join the models. */
    method Synchronize(originModels: seq<string>, pendingAdd: seq<string>) returns (modelsChanged: bool, autoAdded: int)
      modifies this`models
      ensures var merged := Merge(originModels, pendingAdd);
              if |merged| > |originModels|
              then modelsChanged && autoAdded == |merged| - |originModels| && models == Join(merged, ',')
              else !modelsChanged && autoAdded == 0 && models == old(models)
    {
      modelsChanged, autoAdded := false, 0;
      var mergedModels := MergeModelNames(originModels, pendingAdd);
      if |mergedModels| > |originModels| {
        models := Join(mergedModels, ',');
        autoAdded := |mergedModels| - |originModels|;
        modelsChanged := true;
      }
    }

    method Apply(chosen: Selection, now: int) returns (added: seq<string>, taken: seq<string>, modelsChanged: bool)
      modifies this
      ensures State() == Applied(old(State()), chosen, now)
      ensures added == TakenAdd(old(State()), chosen) && taken == TakenRemove(old(State()), chosen)
      ensures modelsChanged <==> NextModels(old(State()), chosen) != LocalModels(old(State()))
    {
      var next;
      next, added, taken := ApplyTo(State(), chosen, now);
      modelsChanged := NextModels(State(), chosen) != LocalModels(State());
      // updateChannelUpstreamModelSettings
      models, lastCheckTime := next.models, next.lastCheckTime;
      detected, removed, ignored := next.detected, next.removed, next.ignored;
    }
  }

  /** The computation on a copy of the channel and its settings. */
  method ApplyTo(c: Channel, chosen: Selection, now: int) returns (next: Channel, added: seq<string>, taken: seq<string>)
    ensures next == Applied(c, chosen, now)
    ensures added == TakenAdd(c, chosen) && taken == TakenRemove(c, chosen)
  {
    var pendingAdd := Normalize(c.detected);
    var pendingRemove := Normalize(c.removed);
    var ignore;
    added, ignore, taken := TakeSelected(chosen, pendingAdd, pendingRemove);
    next := c;
    var originModels := Normalize(Items(c.models, ','));
    var nextModels := ApplySelected(originModels, added, taken);
    if nextModels != originModels {
      next := next.(models := Join(nextModels, ','));
    }
    var newIgnored := IgnoreSelected(c.ignored, ignore, added);
    next := next.(ignored := newIgnored,
                  detected := Subtract(pendingAdd, added + ignore),
                  removed := Subtract(pendingRemove, taken),
                  lastCheckTime := now);
  }

  method TakeSelected(chosen: Selection, pendingAdd: seq<string>, pendingRemove: seq<string>)
    returns (add: seq<string>, ignore: seq<string>, remove: seq<string>)
    ensures add == Intersect(chosen.add, pendingAdd)
    ensures ignore == Intersect(chosen.ignore, pendingAdd)
    ensures remove == Subtract(Intersect(chosen.remove, pendingRemove), add)
  {
    add := Intersect(chosen.add, pendingAdd);
    ignore := Intersect(chosen.ignore, pendingAdd);
    remove := Intersect(chosen.remove, pendingRemove);
    remove := Subtract(remove, add);
  }

  method IgnoreSelected(ignored: seq<string>, ignore: seq<string>, add: seq<string>) returns (r: seq<string>)
    ensures r == var merged := Merge(ignored, ignore); if add != [] then Subtract(merged, add) else merged
  {
    r := MergeModelNames(ignored, ignore);
    if |add| > 0 {
      r := Subtract(r, add);
    }
  }

  // ---------------------------------------------------------------------
  // The invariant of the pending lists
  // ---------------------------------------------------------------------

  /** Model names are stored comma-separated, so they must not contain commas. */
  ghost predicate CommaFree(names: seq<string>) {
    forall i :: 0 <= i < |names| ==> ',' !in names[i]
  }

  lemma {:induction false} NormalizeCommaFree(names: seq<string>)
    requires CommaFree(names)
    ensures CommaFree(Normalize(names))
  {
    if names != [] {
      NormalizeCommaFree(names[..|names| - 1]);
      TrimResult(names[|names| - 1]);
    }
  }

  lemma LocalModelsOk(c: Channel)
    ensures Clean(LocalModels(c)) && CommaFree(LocalModels(c))
  {
    NormalizeIsClean(Items(c.models, ','));
    ItemsWithoutSeparator(c.models, ',');
    NormalizeCommaFree(Items(c.models, ','));
  }

  /** A clean comma-free list is read back as it was stored. */
  lemma StoredModels(names: seq<string>)
    requires Clean(names) && CommaFree(names)
    ensures Normalize(Items(Join(names, ','), ',')) == names
  {
    assert AllStorable(names, ',');
    ItemsRoundTrip(names, ',');
    NormalizeClean(names);
  }

  ghost predicate CommaFreeMembers(names: seq<string>) {
    forall m :: m in names ==> ',' !in m
  }

  ghost predicate PendingOk(c: Channel) {
    && Clean(c.detected) && Clean(c.removed)
    && CommaFreeMembers(c.detected)
    && (forall m :: m in c.detected ==> m !in LocalModels(c) && m !in c.removed)
    && (forall m :: m in c.removed ==> m in LocalModels(c))
  }

  ghost predicate InputOk(input: CheckInput) {
    input.fetched.Some? ==> CommaFree(input.fetched.value)
  }
}
