/** What reconciliation promises: the pending lists stay consistent over every run of
    checks and applications, and applying everything that was proposed leaves nothing
    to propose. */
module UpstreamLaws {
  import opened Basics
  import opened TextLists
  import opened ModelNames
  import opened UpstreamSync

  // ---------------------------------------------------------------------
  // A check
  // ---------------------------------------------------------------------

  lemma ProposedOk(c: Channel, upstream: seq<string>, mapping: map<string, string>, matches: Matcher)
    requires CommaFree(upstream)
    ensures var add, remove := PendingAdd(Items(c.models, ','), upstream, c.ignored, mapping, matches),
                               PendingRemove(Items(c.models, ','), upstream, mapping);
            && Clean(add) && Clean(remove) && CommaFreeMembers(add)
            && (forall m :: m in add ==> m !in LocalModels(c) && m !in remove)
            && (forall m :: m in remove ==> m in LocalModels(c))
  {
    PendingExact(Items(c.models, ','), upstream, c.ignored, mapping, matches);
    NormalizeCommaFree(upstream);
  }

  /** Automatic synchronization appends exactly the proposed models. */
  lemma AutoSyncAppends(c: Channel, add: seq<string>)
    requires Clean(add) && CommaFreeMembers(add) && forall m :: m in add ==> m !in LocalModels(c)
    ensures Merge(LocalModels(c), add) == LocalModels(c) + add
    ensures Normalize(Items(Join(Merge(LocalModels(c), add), ','), ',')) == LocalModels(c) + add
  {
    LocalModelsOk(c);
    var local := LocalModels(c);
    NormalizeClean(local);
    NormalizeClean(add);
    FilterKeepsAll(add, NotIn(local));
    ConcatClean(local, add);
    assert CommaFree(local + add);
    StoredModels(local + add);
  }

  lemma {:induction false} FilterKeepsAll(names: seq<string>, keep: string -> bool)
    requires forall m :: m in names ==> keep(m)
    ensures Filter(names, keep) == names
  {
    if names != [] {
      var front := names[..|names| - 1];
      assert names == front + [names[|names| - 1]];
      FilterKeepsAll(front, keep);
    }
  }

  /** The check is forced, or the last one is long enough ago. */
  predicate Due(c: Channel, input: CheckInput) {
    input.force || c.lastCheckTime <= 0 || input.now - c.lastCheckTime >= input.minInterval
  }

  /** A check keeps the pending lists consistent; when it synchronizes automatically
      it adds as many models as were proposed, otherwise none. */
  lemma CheckKeepsPending(c: Channel, input: CheckInput, matches: Matcher)
    requires PendingOk(c) && InputOk(input)
    ensures PendingOk(Checked(c, input, matches).channel)
    ensures |LocalModels(Checked(c, input, matches).channel)| == |LocalModels(c)| + Checked(c, input, matches).autoAdded
    ensures Checked(c, input, matches).modelsChanged <==> LocalModels(Checked(c, input, matches).channel) != LocalModels(c)
    ensures Due(c, input) && input.fetched.Some? ==>
              var add := PendingAdd(Items(c.models, ','), input.fetched.value, c.ignored, input.mapping, matches);
              Checked(c, input, matches).autoAdded == if input.allowAutoApply && c.autoSync then |add| else 0
  {
    if input.fetched.Some? {
      var local, upstream := Items(c.models, ','), input.fetched.value;
      var add := PendingAdd(local, upstream, c.ignored, input.mapping, matches);
      ProposedOk(c, upstream, input.mapping, matches);
      AutoSyncAppends(c, add);
    }
  }

  /** An entry of the ignore list that stands for a name: a pattern that matches it, or the
      name itself. */
  ghost predicate StandsFor(entry: string, m: string, matches: Matcher) {
    if "regex:" <= entry then matches(TrimSpace(entry[6..]), m) else entry == m
  }

  /** What a check proposes to add: an upstream name that is not local, not the target of a
      redirect, and that no entry of the ignore list stands for. */
  ghost predicate Proposed(c: Channel, upstream: seq<string>, mapping: map<string, string>, matches: Matcher, m: string) {
    && m in Normalize(upstream) && m !in LocalModels(c)
    && (forall source :: source in mapping ==> mapping[source] != m)
    && (forall entry :: entry in Normalize(c.ignored) ==> !StandsFor(entry, m, matches))
  }

  /** What a due check that reaches the upstream leaves: exactly the removals and, unless it
      synchronizes, exactly the additions; then these join the models instead. */
  lemma CheckRecords(c: Channel, input: CheckInput, matches: Matcher)
    requires InputOk(input) && Due(c, input) && input.fetched.Some?
    ensures var c', upstream := Checked(c, input, matches).channel, input.fetched.value;
            && c'.ignored == c.ignored && c'.autoSync == c.autoSync && c'.lastCheckTime == input.now
            && (forall m :: m in c'.removed <==> m in LocalModels(c) && m !in input.mapping && m !in Normalize(upstream))
    ensures var c', upstream := Checked(c, input, matches).channel, input.fetched.value;
            if input.allowAutoApply && c.autoSync then
              && c'.detected == []
              && (forall m :: m in LocalModels(c') <==> m in LocalModels(c) || Proposed(c, upstream, input.mapping, matches, m))
            else
              && c'.models == c.models
              && (forall m :: m in c'.detected <==> Proposed(c, upstream, input.mapping, matches, m))
  {
    var local, upstream := Items(c.models, ','), input.fetched.value;
    var add := PendingAdd(local, upstream, c.ignored, input.mapping, matches);
    PendingExact(local, upstream, c.ignored, input.mapping, matches);
    ProposedOk(c, upstream, input.mapping, matches);
    forall m ensures m in add <==> Proposed(c, upstream, input.mapping, matches, m) {
      IgnoredExactly(Normalize(c.ignored), m, matches);
    }
    AutoSyncAppends(c, add);
  }

  lemma IgnoredExactly(ignored: seq<string>, m: string, matches: Matcher)
    ensures Ignores(ignored, m, matches) <==> exists entry :: entry in ignored && StandsFor(entry, m, matches)
  {
    forall entry ensures Covers(entry, m, matches) <==> StandsFor(entry, m, matches) {
    }
    if entry :| entry in ignored && StandsFor(entry, m, matches) {
      var i :| 0 <= i < |ignored| && ignored[i] == entry;
      assert Covers(ignored[i], m, matches);
    }
  }

  /** A check that is not due leaves everything as it is, and one that does not reach the
      upstream everything but its time. */
  lemma CheckLeaves(c: Channel, input: CheckInput, matches: Matcher)
    ensures !Due(c, input) ==> Checked(c, input, matches).channel == c
    ensures Due(c, input) && input.fetched.None? ==>
              var c' := Checked(c, input, matches).channel;
              && c'.models == c.models && c'.detected == c.detected && c'.removed == c.removed && c'.ignored == c.ignored
              && c'.autoSync == c.autoSync && c'.lastCheckTime == input.now
  {
  }

  // ---------------------------------------------------------------------
  // An application
  // ---------------------------------------------------------------------

  /** What an application takes from the pending lists. */
  lemma TakenExact(c: Channel, chosen: Selection)
    requires PendingOk(c)
    ensures Clean(TakenAdd(c, chosen)) && Clean(TakenIgnore(c, chosen)) && Clean(TakenRemove(c, chosen))
    ensures forall m :: m in TakenAdd(c, chosen) <==> m in Normalize(chosen.add) && m in c.detected
    ensures forall m :: m in TakenIgnore(c, chosen) <==> m in Normalize(chosen.ignore) && m in c.detected
    ensures forall m :: m in TakenRemove(c, chosen) <==> m in Normalize(chosen.remove) && m in c.removed
  {
    NormalizeClean(c.detected);
    NormalizeClean(c.removed);
    IntersectClean(chosen.add, c.detected);
    IntersectClean(chosen.ignore, c.detected);
    IntersectClean(chosen.remove, c.removed);
    var add, remove := TakenAdd(c, chosen), Intersect(chosen.remove, c.removed);
    NormalizeClean(add);
    NormalizeClean(remove);
    SubtractClean(remove, add);
  }

  /** The models after an application: what was there and what was added, less what
      was removed. */
  lemma AppliedModels(c: Channel, chosen: Selection, now: int)
    requires PendingOk(c)
    ensures LocalModels(Applied(c, chosen, now)) == NextModels(c, chosen)
    ensures forall m :: m in NextModels(c, chosen) <==>
              m in TakenAdd(c, chosen) || (m in LocalModels(c) && m !in TakenRemove(c, chosen))
  {
    var add, remove, local := TakenAdd(c, chosen), TakenRemove(c, chosen), LocalModels(c);
    TakenExact(c, chosen);
    LocalModelsOk(c);
    ApplySelectedExact(local, add, remove);
    NormalizeClean(add);
    NormalizeClean(remove);
    NormalizeClean(local);
    var next := NextModels(c, chosen);
    assert forall i :: 0 <= i < |local| ==> local[i] in local;
    forall i | 0 <= i < |next| ensures ',' !in next[i] {
      assert next[i] in next;
    }
    StoredModels(next);
  }

  lemma AppliedPending(c: Channel, chosen: Selection, now: int)
    requires PendingOk(c)
    ensures var c' := Applied(c, chosen, now);
            && Clean(c'.detected) && Clean(c'.removed)
            && (forall m :: m in c'.detected <==> m in c.detected && m !in TakenAdd(c, chosen) && m !in TakenIgnore(c, chosen))
            && (forall m :: m in c'.removed <==> m in c.removed && m !in TakenRemove(c, chosen))
  {
    var add, ignore, remove := TakenAdd(c, chosen), TakenIgnore(c, chosen), TakenRemove(c, chosen);
    TakenExact(c, chosen);
    NormalizeClean(c.detected);
    NormalizeClean(c.removed);
    NormalizeClean(remove);
    SubtractClean(c.removed, remove);
    SubtractClean(c.detected, add + ignore);
    NormalizeConcat(add, ignore);
  }

  /** Concatenating two clean lists and normalizing loses no name. */
  lemma NormalizeConcat(a: seq<string>, b: seq<string>)
    requires Clean(a) && Clean(b)
    ensures forall m :: m in Normalize(a + b) <==> m in a || m in b
  {
    forall m ensures m in Normalize(a + b) <==> m in a || m in b {
      NormalizeMembers(a + b, m);
      var all := a + b;
      forall i | 0 <= i < |all| ensures TrimSpace(all[i]) == all[i] && all[i] != "" {
        TrimResult(all[i]);
      }
      if m in a || m in b {
        assert m in all;
        var i :| 0 <= i < |all| && all[i] == m;
        assert TrimSpace(all[i]) == m;
      }
    }
  }

  lemma AppliedIgnored(c: Channel, chosen: Selection, now: int)
    requires PendingOk(c)
    ensures Clean(NextIgnored(c, chosen))
    ensures forall m :: m in NextIgnored(c, chosen) <==>
              (m in Normalize(c.ignored) || m in TakenIgnore(c, chosen)) && m !in TakenAdd(c, chosen)
  {
    TakenExact(c, chosen);
    NormalizeClean(TakenIgnore(c, chosen));
    NormalizeClean(TakenAdd(c, chosen));
    MergeClean(c.ignored, TakenIgnore(c, chosen));
    var merged := Merge(c.ignored, TakenIgnore(c, chosen));
    NormalizeClean(merged);
    SubtractClean(merged, TakenAdd(c, chosen));
  }

  lemma ApplyKeepsPending(c: Channel, chosen: Selection, now: int)
    requires PendingOk(c)
    ensures PendingOk(Applied(c, chosen, now)) && Clean(Applied(c, chosen, now).ignored)
  {
    TakenExact(c, chosen);
    AppliedModels(c, chosen, now);
    AppliedPending(c, chosen, now);
    AppliedIgnored(c, chosen, now);
  }

  /** A model selected both to be added and to be ignored ends added and not ignored. */
  lemma AddWins(c: Channel, chosen: Selection, now: int, m: string)
    requires PendingOk(c) && m in c.detected && m in Normalize(chosen.add)
    ensures m in LocalModels(Applied(c, chosen, now))
    ensures m !in Applied(c, chosen, now).ignored && m !in Applied(c, chosen, now).detected
  {
    TakenExact(c, chosen);
    AppliedModels(c, chosen, now);
    AppliedPending(c, chosen, now);
    AppliedIgnored(c, chosen, now);
  }

  // ---------------------------------------------------------------------
  // Every run
  // ---------------------------------------------------------------------

  datatype Event = Check(input: CheckInput) | Apply(chosen: Selection, now: int)

  function Advance(c: Channel, e: Event, matches: Matcher): Channel {
    match e
    case Check(input) => Checked(c, input, matches).channel
    case Apply(chosen, now) => Applied(c, chosen, now)
  }

  function Run(c: Channel, events: seq<Event>, matches: Matcher): Channel
    decreases |events|
  {
    if events == [] then c else Run(Advance(c, events[0], matches), events[1..], matches)
  }

  /** Over every run of checks, automatic synchronizations and partial applications:
      pending additions stay disjoint from the local models and from the pending
      removals, pending removals stay local models, and all lists stay trimmed and
      free of duplicates. */
  lemma {:induction false} RunKeepsPending(c: Channel, events: seq<Event>, matches: Matcher)
    requires PendingOk(c)
    requires forall i :: 0 <= i < |events| && events[i].Check? ==> InputOk(events[i].input)
    ensures PendingOk(Run(c, events, matches)) && Run(c, events, matches).autoSync == c.autoSync
    ensures Clean(c.ignored) ==> Clean(Run(c, events, matches).ignored)
    decreases |events|
  {
    if events != [] {
      match events[0] {
        case Check(input) => CheckKeepsPending(c, input, matches);
        case Apply(chosen, now) => ApplyKeepsPending(c, chosen, now);
      }
      RunKeepsPending(Advance(c, events[0], matches), events[1..], matches);
    }
  }

  /** In every run, a check that reaches the upstream and may synchronize adds exactly as
      many models as it finds pending, and any other check adds none. */
  lemma AutoAddedCount(c: Channel, events: seq<Event>, input: CheckInput, matches: Matcher)
    requires PendingOk(c) && InputOk(input)
    requires forall i :: 0 <= i < |events| && events[i].Check? ==> InputOk(events[i].input)
    ensures var now := Run(c, events, matches);
            Checked(now, input, matches).autoAdded ==
              if Due(now, input) && input.fetched.Some? && input.allowAutoApply && now.autoSync
              then |PendingAdd(Items(now.models, ','), input.fetched.value, now.ignored, input.mapping, matches)|
              else 0
  {
    RunKeepsPending(c, events, matches);
    CheckKeepsPending(Run(c, events, matches), input, matches);
  }

  // ---------------------------------------------------------------------
  // How often the upstream is asked
  // ---------------------------------------------------------------------

  function TimeOf(e: Event): int {
    if e.Check? then e.input.now else e.now
  }

  /** The event asks the upstream or applies changes; otherwise it is a check that comes
      too early. */
  predicate Touches(c: Channel, e: Event) {
    e.Check? ==> Due(c, e.input)
  }

  ghost predicate ClockForward(events: seq<Event>, start: int) {
    && (forall i :: 0 <= i < |events| ==> start <= TimeOf(events[i]))
    && (forall i, j :: 0 <= i < j < |events| ==> TimeOf(events[i]) <= TimeOf(events[j]))
  }

  lemma LastCheckMoves(c: Channel, e: Event, matches: Matcher)
    ensures Advance(c, e, matches).lastCheckTime == if Touches(c, e) then TimeOf(e) else c.lastCheckTime
  {
  }

  lemma {:induction false} LastCheckGrows(c: Channel, events: seq<Event>, matches: Matcher)
    requires ClockForward(events, c.lastCheckTime)
    ensures Run(c, events, matches).lastCheckTime >= c.lastCheckTime
    decreases |events|
  {
    if events != [] {
      LastCheckMoves(c, events[0], matches);
      LastCheckGrows(Advance(c, events[0], matches), events[1..], matches);
    }
  }

  lemma {:induction false} LastCheckSince(c: Channel, events: seq<Event>, i: nat, matches: Matcher)
    requires ClockForward(events, c.lastCheckTime) && i < |events| && Touches(Run(c, events[..i], matches), events[i])
    ensures Run(c, events, matches).lastCheckTime >= TimeOf(events[i])
    decreases |events|
  {
    var c', rest := Advance(c, events[0], matches), events[1..];
    LastCheckMoves(c, events[0], matches);
    if i == 0 {
      LastCheckGrows(c', rest, matches);
    } else {
      assert events[..i][1..] == rest[..i - 1];
      LastCheckSince(c', rest, i - 1, matches);
    }
  }

  /** Over every run, an unforced check asks the upstream only when at least the minimum
      interval has passed since every earlier question and every application. */
  lemma ChecksSpaced(c: Channel, events: seq<Event>, i: nat, input: CheckInput, matches: Matcher)
    requires ClockForward(events, c.lastCheckTime) && c.lastCheckTime >= 0
    requires i < |events| && TimeOf(events[i]) > 0 && Touches(Run(c, events[..i], matches), events[i])
    requires !input.force && Touches(Run(c, events, matches), Check(input))
    ensures input.now - TimeOf(events[i]) >= input.minInterval
  {
    LastCheckSince(c, events, i, matches);
  }

  // ---------------------------------------------------------------------
  // Detect, apply, detect
  // ---------------------------------------------------------------------

  /** A check by hand: forced and without automatic synchronization. */
  function Detected(c: Channel, upstream: seq<string>, mapping: map<string, string>, now: int, matches: Matcher): Channel {
    Checked(c, CheckInput(now, 0, true, false, Some(upstream), mapping), matches).channel
  }

  function AppliedAll(c: Channel, now: int): Channel {
    Applied(c, Selection(c.detected, [], c.removed), now)
  }

  /** An upstream name that was ignored only through entries that the application
      dropped from the ignore list, because they were upstream names themselves. */
  predicate LosesItsEntry(c: Channel, add: seq<string>, upstream: seq<string>, mapping: map<string, string>, matches: Matcher, m: string) {
    && m in Normalize(upstream) && m !in LocalModels(c) && m !in mapping.Values
    && Ignores(Normalize(c.ignored), m, matches)
    && forall e :: e in Normalize(c.ignored) && Covers(e, m, matches) ==> e in add
  }

  lemma IgnoresMembers(ignored: seq<string>, m: string, matches: Matcher)
    ensures Ignores(ignored, m, matches) <==> exists e :: e in ignored && Covers(e, m, matches)
  {
    if Ignores(ignored, m, matches) {
      var i :| 0 <= i < |ignored| && Covers(ignored[i], m, matches);
      assert ignored[i] in ignored;
    }
  }

  /** The state between the two detections. */
  lemma AfterApplyingAll(c: Channel, upstream: seq<string>, mapping: map<string, string>, now: int, matches: Matcher)
    requires PendingOk(c) && CommaFree(upstream)
    ensures var c1 := Detected(c, upstream, mapping, now, matches);
            var c2 := AppliedAll(c1, now);
            && (forall m :: m in LocalModels(c2) <==> m in c1.detected || (m in LocalModels(c) && m !in c1.removed))
            && Clean(c2.ignored)
            && (forall e :: e in c2.ignored <==> e in Normalize(c.ignored) && e !in c1.detected)
            && c2.detected == [] && c2.removed == []
  {
    var c1 := Detected(c, upstream, mapping, now, matches);
    var all := Selection(c1.detected, [], c1.removed);
    CheckKeepsPending(c, CheckInput(now, 0, true, false, Some(upstream), mapping), matches);
    NormalizeClean(c1.detected);
    NormalizeClean(c1.removed);
    TakenExact(c1, all);
    AppliedModels(c1, all, now);
    AppliedPending(c1, all, now);
    AppliedIgnored(c1, all, now);
    EmptyList(Applied(c1, all, now).detected);
    EmptyList(Applied(c1, all, now).removed);
  }

  lemma EmptyList(names: seq<string>)
    ensures (forall m :: m !in names) ==> names == []
  {
    if names != [] {
      assert names[0] in names;
    }
  }

  /** After everything proposed has been applied, the same upstream list proposes no
      removal, and no addition but of names that lost their ignore entry. */
  lemma Reconciled(c: Channel, upstream: seq<string>, mapping: map<string, string>, now: int, matches: Matcher)
    requires PendingOk(c) && CommaFree(upstream)
    ensures var c1 := Detected(c, upstream, mapping, now, matches);
            var c2 := AppliedAll(c1, now);
            var c3 := Detected(c2, upstream, mapping, now, matches);
            && c3.removed == []
            && forall m :: m in c3.detected <==> LosesItsEntry(c, c1.detected, upstream, mapping, matches, m)
  {
    var c1 := Detected(c, upstream, mapping, now, matches);
    var c2 := AppliedAll(c1, now);
    var c3 := Detected(c2, upstream, mapping, now, matches);
    AfterApplyingAll(c, upstream, mapping, now, matches);
    PendingExact(Items(c.models, ','), upstream, c.ignored, mapping, matches);
    PendingExact(Items(c2.models, ','), upstream, c2.ignored, mapping, matches);
    NormalizeClean(c2.ignored);
    EmptyList(c3.removed);
    forall m ensures m in c3.detected <==> LosesItsEntry(c, c1.detected, upstream, mapping, matches, m) {
      EntryLost(Normalize(c.ignored), c1.detected, c2.ignored, m, matches);
    }
  }

  /** Ignored before, not ignored after: all the entries for it were dropped. */
  lemma EntryLost(ignored: seq<string>, add: seq<string>, kept: seq<string>, m: string, matches: Matcher)
    requires forall e :: e in kept <==> e in ignored && e !in add
    ensures Ignores(ignored, m, matches) && !Ignores(kept, m, matches) <==>
            Ignores(ignored, m, matches) && forall e :: e in ignored && Covers(e, m, matches) ==> e in add
  {
    IgnoresMembers(ignored, m, matches);
    IgnoresMembers(kept, m, matches);
  }

  predicate IsPattern(name: string) {
    |name| >= |REGEX_PREFIX| && name[..|REGEX_PREFIX|] == REGEX_PREFIX
  }

  /** Hence nothing at all is proposed when no upstream name looks like a pattern. */
  lemma ReconciledWithoutPatterns(c: Channel, upstream: seq<string>, mapping: map<string, string>, now: int, matches: Matcher)
    requires PendingOk(c) && CommaFree(upstream)
    requires forall m :: m in Normalize(upstream) ==> !IsPattern(m)
    ensures var c3 := Detected(AppliedAll(Detected(c, upstream, mapping, now, matches), now), upstream, mapping, now, matches);
            c3.detected == [] && c3.removed == []
  {
    var c1 := Detected(c, upstream, mapping, now, matches);
    var c3 := Detected(AppliedAll(c1, now), upstream, mapping, now, matches);
    Reconciled(c, upstream, mapping, now, matches);
    EntriesStay(c, upstream, mapping, now, matches);
    forall m ensures m !in c3.detected {
      IgnoresMembers(Normalize(c.ignored), m, matches);
    }
    EmptyList(c3.detected);
  }

  lemma EntriesStay(c: Channel, upstream: seq<string>, mapping: map<string, string>, now: int, matches: Matcher)
    requires PendingOk(c)
    requires forall m :: m in Normalize(upstream) ==> !IsPattern(m)
    ensures forall e :: e in Normalize(c.ignored) ==> e !in Detected(c, upstream, mapping, now, matches).detected
  {
    PendingExact(Items(c.models, ','), upstream, c.ignored, mapping, matches);
    forall e | e in Normalize(c.ignored) ensures e !in Detected(c, upstream, mapping, now, matches).detected {
      IgnoresMembers(Normalize(c.ignored), e, matches);
      assert IsPattern(e) || Covers(e, e, matches);
    }
  }

  /** A channel without models that ignores one pattern. */
  function Ignoring(pattern: string): Channel {
    Channel("", false, 0, [], [], [pattern])
  }

  lemma PatternLosesItself(pattern: string, m: string, matches: Matcher)
    requires Trimmed(pattern) && IsPattern(pattern) && Trimmed(m) && m != pattern
    requires matches(TrimSpace(pattern[|REGEX_PREFIX|..]), m) && !matches(TrimSpace(pattern[|REGEX_PREFIX|..]), pattern)
    ensures var c, upstream := Ignoring(pattern), [pattern, m];
            LosesItsEntry(c, Detected(c, upstream, map[], 1, matches).detected, upstream, map[], matches, m)
  {
    var c, upstream := Ignoring(pattern), [pattern, m];
    NormalizeClean(upstream);
    NormalizeClean(c.ignored);
    assert upstream[0] in upstream && upstream[1] in upstream;
    assert Covers(c.ignored[0], m, matches);
    PendingExact(Items(c.models, ','), upstream, c.ignored, map[], matches);
  }

  /** ... and something is when one does: for any pattern that matches another upstream
      name but not itself, adding the model named like the pattern drops the pattern, and
      the other name is proposed although nothing has changed upstream. */
  lemma PatternNameBreaksIt(pattern: string, m: string, matches: Matcher)
    requires Trimmed(pattern) && IsPattern(pattern) && Trimmed(m) && m != pattern && CommaFree([pattern, m])
    requires matches(TrimSpace(pattern[|REGEX_PREFIX|..]), m) && !matches(TrimSpace(pattern[|REGEX_PREFIX|..]), pattern)
    ensures var c1 := Detected(Ignoring(pattern), [pattern, m], map[], 1, matches);
            m in Detected(AppliedAll(c1, 1), [pattern, m], map[], 1, matches).detected
  {
    PatternLosesItself(pattern, m, matches);
    Reconciled(Ignoring(pattern), [pattern, m], map[], 1, matches);
  }
}
