/** Several requests on one multi-key channel: each loads the channel before it takes the
    lock and stores its result later (controller/channel.go, model/channel.go), so loads
    and stores of different requests interleave in any way. */
module MultiKeyRaces {
  import opened Basics
  import opened MultiKey
  import opened MultiKeyLaws

  /** The stored channel, and the copies of the requests that have loaded it. */
  datatype State = State(stored: Channel, loaded: map<nat, Channel>)

  datatype Step = Load(j: nat) | Store(j: nat, action: Action)

  /** What a management action hands to `Channel.Update`; nothing when it is refused. */
  function Outcome(c: Channel, a: Action): Option<Channel> {
    match a
    case Disable(i) =>
      if 0 <= i < c.multiKeySize then Some(c.(statusList := c.statusList[i := MANUALLY_DISABLED])) else None
    case Enable(i) =>
      if 0 <= i < c.multiKeySize
      then Some(c.(statusList := c.statusList - {i}, disabledTime := c.disabledTime - {i}, disabledReason := c.disabledReason - {i}))
      else None
    case EnableAll => Some(c.(statusList := map[], disabledTime := map[], disabledReason := map[]))
    case DisableAll =>
      if EnabledIndices(c) == {} then None else Some(c.(statusList := DisabledBelow(c, c.multiKeySize)))
    case Delete(i) =>
      var rest := Rebuild(c, {i}, false, |c.keys|);
      if 0 <= i < c.multiKeySize && rest.keys != [] then Some(rest) else None
    case DeleteDisabled =>
      if AutoDisabledIndices(c) == {} then None else Some(Rebuild(c, AutoDisabledIndices(c), true, |c.keys|))
    case Fail(_, _, _) => None
  }

  /** What is stored when a request that loaded `copy` comes to store: a management action
      writes keys and statuses together, an automatic disabling everything but the keys
      (`SaveWithoutKey`). */
  function Stored(current: Channel, copy: Channel, a: Action): Channel {
    if a.Fail? then AutoDisabled(copy, a.usingKey, a.reason, a.now).(keys := current.keys)
    else if Outcome(copy, a).None? then current
    else Updated(current, Outcome(copy, a).value)
  }

  predicate Possible(s: State, step: Step) {
    match step
    case Load(j) => j !in s.loaded
    case Store(j, _) => j in s.loaded
  }

  function After(s: State, step: Step): State
    requires Possible(s, step)
  {
    match step
    case Load(j) => s.(loaded := s.loaded[j := s.stored])
    case Store(j, a) => State(Stored(s.stored, s.loaded[j], a), s.loaded - {j})
  }

  /** A run: any interleaving, from a valid channel that nobody has loaded. */
  ghost predicate IsRun(run: seq<State>, steps: seq<Step>) {
    && |run| == |steps| + 1
    && ValidChannel(run[0].stored) && run[0].loaded == map[]
    && forall k {:trigger steps[k]} :: 0 <= k < |steps| ==> Possible(run[k], steps[k]) && run[k + 1] == After(run[k], steps[k])
  }

  // ---------------------------------------------------------------------
  // One request at a time
  // ---------------------------------------------------------------------

  /** Without an interleaving a request does what its action does. */
  lemma AloneIsPerform(c: Channel, a: Action)
    requires ValidChannel(c)
    ensures Stored(c, c, a) == Perform(c, a)
  {
    if a.DisableAll? && EnabledIndices(c) == {} {
      assert EnabledBelow(c, c.multiKeySize) == {};
      assert DisabledBelow(c, c.multiKeySize) == c.statusList;
      assert Updated(c, c) == c;
    }
  }

  /** The last store wins: an accepted management action stores what it makes of the
      channel its request loaded, whatever was stored meanwhile, unless it is a bulk
      deletion of every key. */
  lemma LastStoreWins(current: Channel, copy: Channel, a: Action)
    requires ValidChannel(current) && ValidChannel(copy) && copy.keys != []
    requires !a.Fail? && Outcome(copy, a).Some? && (a.DeleteDisabled? ==> SomeKeyLive(copy))
    ensures Stored(current, copy, a) == Perform(copy, a)
  {
    AloneIsPerform(copy, a);
    if a.DeleteDisabled? {
      RebuildNotEmpty(copy);
    }
  }

  lemma RebuildNotEmpty(c: Channel)
    requires SomeKeyLive(c)
    ensures Rebuild(c, AutoDisabledIndices(c), true, |c.keys|).keys != []
  {
    var n := |c.keys|;
    RebuildKeepsEntries(c, AutoDisabledIndices(c), true, n);
    KeepIsLive(c, n);
    assert Entries(c)[..n] == Entries(c);
    var i :| 0 <= i < n && StatusAt(c, i) != AUTO_DISABLED;
    LiveMember(Entries(c), i);
  }

  // ---------------------------------------------------------------------
  // Valid channels
  // ---------------------------------------------------------------------

  lemma OutcomeValid(c: Channel, a: Action)
    requires ValidChannel(c) && Outcome(c, a).Some?
    ensures ValidChannel(Outcome(c, a).value)
  {
    match a
    case Delete(i) => RebuildValid(c, {i}, false, |c.keys|);
    case DeleteDisabled => RebuildValid(c, AutoDisabledIndices(c), true, |c.keys|);
    case _ =>
  }

  lemma UpdateValid(current: Channel, next: Channel)
    requires ValidChannel(current) && ValidChannel(next)
    ensures ValidChannel(Updated(current, next))
  {
    if next.keys == [] {
      EmptyHasNoStatus(next);
    }
  }

  /** A store leaves a valid channel if and only if it is not an automatic disabling that
      meets another number of keys than it loaded. */
  lemma StoreValidExactly(current: Channel, copy: Channel, a: Action)
    requires ValidChannel(current) && ValidChannel(copy)
    ensures ValidChannel(Stored(current, copy, a)) <==> (a.Fail? ==> |current.keys| == |copy.keys|)
  {
    if !a.Fail? && Outcome(copy, a).Some? {
      OutcomeValid(copy, a);
      UpdateValid(current, Outcome(copy, a).value);
    }
  }

  ghost predicate AllValid(s: State) {
    ValidChannel(s.stored) && forall j :: j in s.loaded ==> ValidChannel(s.loaded[j])
  }

  /** The step is not an automatic disabling that meets another number of keys. */
  predicate KeepsCount(s: State, step: Step) {
    step.Store? && step.action.Fail? && step.j in s.loaded ==> |s.stored.keys| == |s.loaded[step.j].keys|
  }

  /** Whatever the interleaving, every stored channel is valid, unless an automatic
      disabling meets another number of keys than it loaded. */
  lemma {:induction false} RacesKeepValid(run: seq<State>, steps: seq<Step>, k: nat)
    requires IsRun(run, steps) && k < |run|
    requires forall i :: 0 <= i < |steps| ==> KeepsCount(run[i], steps[i])
    ensures AllValid(run[k])
  {
    if k > 0 {
      RacesKeepValid(run, steps, k - 1);
      var s, step := run[k - 1], steps[k - 1];
      if step.Store? {
        StoreValidExactly(s.stored, s.loaded[step.j], step.action);
      }
    }
  }

  /** Two requests load a channel with at least two keys; one deletes a key, and the other,
      an automatic disabling, then stores a size that is not the number of keys. */
  lemma FailureAfterDeletion(c: Channel, key: string, reason: string, now: int) returns (run: seq<State>, steps: seq<Step>)
    requires ValidChannel(c) && |c.keys| >= 2
    ensures IsRun(run, steps) && |run| == 5 && run[0] == State(c, map[])
    ensures ValidChannel(run[3].stored) && !ValidChannel(run[4].stored)
  {
    run, steps := DeleteBehind(c, 0, Fail(key, reason, now));
    StoreValidExactly(run[3].stored, c, Fail(key, reason, now));
  }

  /** Requests 0 and 1 load the channel, then 0 stores its action and then 1. */
  lemma BothLoadFirst(c: Channel, a: Action, b: Action) returns (run: seq<State>, steps: seq<Step>)
    requires ValidChannel(c)
    ensures IsRun(run, steps) && |run| == 5 && run[0] == State(c, map[])
    ensures steps == [Load(0), Load(1), Store(0, a), Store(1, b)]
    ensures run[3].stored == Perform(c, a) && ValidChannel(run[3].stored)
    ensures run[4].stored == Stored(run[3].stored, c, b)
  {
    var both := map[0 := c, 1 := c];
    var first := Perform(c, a);
    run := [State(c, map[]), State(c, map[0 := c]), State(c, both), State(first, map[1 := c]), State(Stored(first, c, b), map[])];
    steps := [Load(0), Load(1), Store(0, a), Store(1, b)];
    AloneIsPerform(c, a);
    ActionKeepsValid(c, a);
    assert both - {0} == map[1 := c];
  }

  lemma DeleteBehind(c: Channel, i: int, a: Action) returns (run: seq<State>, steps: seq<Step>)
    requires ValidChannel(c) && |c.keys| >= 2 && 0 <= i < |c.keys|
    ensures IsRun(run, steps) && |run| == 5 && run[0] == State(c, map[])
    ensures ValidChannel(run[3].stored) && run[3].stored.keys == c.keys[..i] + c.keys[i + 1..]
    ensures run[4].stored == Stored(run[3].stored, c, a)
  {
    run, steps := BothLoadFirst(c, Delete(i), a);
    DeleteKeyRemovesEntry(c, i);
    DeletionKeys(c, WithoutKey(c, i), i);
  }

  lemma DeletionKeys(c: Channel, c': Channel, i: int)
    requires 0 <= i < |c.keys| && Entries(c') == Entries(c)[..i] + Entries(c)[i + 1..]
    ensures c'.keys == c.keys[..i] + c.keys[i + 1..]
  {
    assert |c'.keys| == |Entries(c')| == |c.keys| - 1;
    forall k | 0 <= k < |c'.keys| ensures c'.keys[k] == (c.keys[..i] + c.keys[i + 1..])[k] {
      assert c'.keys[k] == Entries(c')[k].key;
    }
  }

  // ---------------------------------------------------------------------
  // Deleted keys
  // ---------------------------------------------------------------------

  lemma {:induction false} RebuildKeys(c: Channel, drop: set<int>, tidy: bool, n: nat)
    requires n <= |c.keys|
    ensures forall k :: k in Rebuild(c, drop, tidy, n).keys ==> k in c.keys
  {
    if n > 0 {
      RebuildKeys(c, drop, tidy, n - 1);
    }
  }

  /** A store brings no key that is neither stored nor in the copy. */
  lemma StoredKeys(current: Channel, copy: Channel, a: Action)
    ensures forall k :: k in Stored(current, copy, a).keys ==> k in current.keys || k in copy.keys
  {
    RebuildKeys(copy, AutoDisabledIndices(copy), true, |copy.keys|);
    if a.Delete? {
      RebuildKeys(copy, {a.keyIndex}, false, |copy.keys|);
    }
  }

  /** Some request still has the key in its copy. */
  ghost predicate Copied(s: State, key: string) {
    exists j :: j in s.loaded && key in s.loaded[j].keys
  }

  ghost predicate Returns(s: State, step: Step, key: string) {
    Possible(s, step) && key in After(s, step).stored.keys
  }

  ghost predicate CanReturn(s: State, key: string) {
    exists step :: Returns(s, step, key)
  }

  /** A key that is not stored can be stored by some next step if and only if some request
      loaded the channel while the key was there and has not stored yet. */
  lemma KeyReturnsExactlyWhen(s: State, key: string)
    requires key !in s.stored.keys
    ensures CanReturn(s, key) <==> Copied(s, key)
  {
    if CanReturn(s, key) {
      var step :| Returns(s, step, key);
      StoredKeys(s.stored, s.loaded[step.j], step.action);
    }
    if Copied(s, key) {
      var j :| j in s.loaded && key in s.loaded[j].keys;
      assert Returns(s, Store(j, EnableAll), key);
    }
  }

  /** Otherwise it is gone for good. */
  lemma {:induction false} GoneForGood(run: seq<State>, steps: seq<Step>, k: nat, m: nat, key: string)
    requires IsRun(run, steps) && k <= m < |run|
    requires key !in run[k].stored.keys && !Copied(run[k], key)
    ensures key !in run[m].stored.keys && !Copied(run[m], key)
  {
    if k < m {
      GoneForGood(run, steps, k, m - 1, key);
      var s, step := run[m - 1], steps[m - 1];
      if step.Store? {
        StoredKeys(s.stored, s.loaded[step.j], step.action);
      }
      forall j | j in run[m].loaded ensures key !in run[m].loaded[j].keys {
        assert j in s.loaded ==> key !in s.loaded[j].keys;
      }
    }
  }

  /** For every key of every channel with at least two: a complete run in which it is
      deleted and comes back, because another request had loaded the channel before. */
  lemma DeletedKeyReturns(c: Channel, i: int) returns (run: seq<State>, steps: seq<Step>)
    requires ValidChannel(c) && |c.keys| >= 2 && 0 <= i < |c.keys|
    ensures IsRun(run, steps) && |run| == 5 && run[0] == State(c, map[])
    ensures run[3].stored.keys == c.keys[..i] + c.keys[i + 1..] && run[4].stored.keys == c.keys
  {
    run, steps := DeleteBehind(c, i, EnableAll);
  }

  /** For any two keys of a channel, the first of them enabled: a complete run in which the
      first is disabled by one request and enabled again, unasked, by another request that
      disables the second key. */
  lemma DisablingLost(c: Channel, i: int, j: int) returns (run: seq<State>, steps: seq<Step>)
    requires ValidChannel(c) && 0 <= i < |c.keys| && 0 <= j < |c.keys| && i != j
    requires Entries(c)[i].status == 1
    ensures IsRun(run, steps) && |run| == 5 && run[0] == State(c, map[])
    ensures steps == [Load(0), Load(1), Store(0, Disable(i)), Store(1, Disable(j))]
    ensures run[3].stored.keys == c.keys == run[4].stored.keys
    ensures Entries(run[3].stored)[i].status == 2
    ensures Entries(run[4].stored)[i].status == 1 && Entries(run[4].stored)[j].status == 2
  {
    run, steps := BothLoadFirst(c, Disable(i), Disable(j));
    LastStoreWins(run[3].stored, c, Disable(j));
    DisableChangesOne(c, i);
    DisableChangesOne(c, j);
  }
}
