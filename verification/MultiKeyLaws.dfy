/** What the multi-key actions promise: deletion keeps the text, order and effective
    status of every surviving key, the bulk deletion is the single deletion repeated,
    every run keeps the channel consistent, and the pages of a report cover it. */
module MultiKeyLaws {
  import opened Basics
  import opened MultiKey

  // ---------------------------------------------------------------------
  // Single actions on entries
  // ---------------------------------------------------------------------

  /** The same keys, in the same order, with the same status, time and reason, but for
      key `i`, which has the same text and the given status, time and reason. */
  ghost predicate OnlyEntry(before: seq<Entry>, after: seq<Entry>, i: int, status: int, time: int, reason: string) {
    && |after| == |before|
    && forall j :: 0 <= j < |before| ==> after[j] == if j == i then Entry(before[j].key, status, time, reason) else before[j]
  }

  /** `disable_key` gives key `i` status 2 and changes no other entry; the time and
      reason of an earlier automatic disabling show again. */
  lemma DisableChangesOne(c: Channel, i: int)
    requires ValidChannel(c) && 0 <= i < |c.keys|
    ensures var after := Entries(MultiKey.Disabled(c, i));
            && |after| == |c.keys|
            && OnlyEntry(Entries(c), after, i, 2, after[i].disabledTime, after[i].reason)
            && after[i].disabledTime == (if i in c.disabledTime then c.disabledTime[i] else 0)
            && after[i].reason == (if i in c.disabledReason then c.disabledReason[i] else "")
  {
    var c' := MultiKey.Disabled(c, i);
    forall j | 0 <= j < |c.keys| && j != i ensures EntryAt(c', j) == EntryAt(c, j) {
    }
  }

  /** `enable_key` gives key `i` status 1, no time and no reason, and changes no other
      entry. */
  lemma EnableChangesOne(c: Channel, i: int)
    requires ValidChannel(c) && 0 <= i < |c.keys|
    ensures OnlyEntry(Entries(c), Entries(MultiKey.Enabled(c, i)), i, 1, 0, "")
  {
    var c' := MultiKey.Enabled(c, i);
    forall j | 0 <= j < |c.keys| && j != i ensures EntryAt(c', j) == EntryAt(c, j) {
    }
  }

  /** `enable_all_keys` leaves every key with status 1, no time and no reason. */
  lemma EnableAllChanges(c: Channel, i: int)
    requires ValidChannel(c) && 0 <= i < |c.keys|
    ensures AllEnabled(c).keys == c.keys
    ensures Entries(AllEnabled(c))[i] == Entry(c.keys[i], 1, 0, "")
  {
    assert EntryAt(AllEnabled(c), i).status == 1;
  }

  /** `disable_all_keys` gives status 2 to exactly the keys with status 1 and changes no
      other entry. */
  lemma DisableAllChanges(c: Channel, i: int)
    requires ValidChannel(c) && 0 <= i < |c.keys|
    ensures var before, after := Entries(c)[i], Entries(AllDisabled(c));
            && AllDisabled(c).keys == c.keys
            && (before.status == 1 ==> after[i].key == before.key && after[i].status == 2)
            && (before.status != 1 ==> after[i] == before)
  {
    assert i in EnabledBelow(c, c.multiKeySize) <==> StatusAt(c, i) == ENABLED;
    assert EntryAt(AllDisabled(c), i).key == c.keys[i];
  }

  /** Enabling forgets the time and reason for good: a key that is enabled, alone or with
      all others, and then disabled by hand has none. */
  lemma EnablingForgets(c: Channel, i: int)
    requires ValidChannel(c) && 0 <= i < |c.keys|
    ensures OnlyEntry(Entries(c), Entries(MultiKey.Disabled(MultiKey.Enabled(c, i), i)), i, 2, 0, "")
    ensures OnlyEntry(Entries(AllEnabled(c)), Entries(MultiKey.Disabled(AllEnabled(c), i)), i, 2, 0, "")
  {
    EnableChangesOne(c, i);
    DisableChangesOne(MultiKey.Enabled(c, i), i);
    DisableChangesOne(AllEnabled(c), i);
  }

  /** A failing key is disabled at its first position, or at the first of all positions
      when the channel no longer has it: status 3 with that time and reason, and no other
      entry changes. */
  lemma FailureChangesOne(c: Channel, key: string, reason: string, now: int, p: int)
    requires ValidChannel(c) && 0 <= p < |c.keys|
    requires if key in c.keys then c.keys[p] == key && key !in c.keys[..p] else p == 0
    ensures OnlyEntry(Entries(c), Entries(AutoDisabled(c, key, reason, now)), p, 3, now, reason)
  {
    PositionIs(c.keys, key, p);
    var c' := AutoDisabled(c, key, reason, now);
    forall j | 0 <= j < |c.keys| && j != p ensures EntryAt(c', j) == EntryAt(c, j) {
    }
  }

  // ---------------------------------------------------------------------
  // Deletion on entries
  // ---------------------------------------------------------------------

  /** The first `n` entries without the dropped ones. */
  function Keep(entries: seq<Entry>, drop: set<int>, n: nat): seq<Entry>
    requires n <= |entries|
  {
    if n == 0 then []
    else Keep(entries, drop, n - 1) + if n - 1 in drop then [] else [entries[n - 1]]
  }

  /** Carrying a key over does not disturb the keys before it. */
  lemma CarryKeepsEntries(c: Channel, i: int, tidy: bool, r: Channel)
    requires 0 <= i < |c.keys|
    requires forall j :: j in r.statusList || j in r.disabledTime || j in r.disabledReason ==> 0 <= j < |r.keys|
    ensures Entries(Carry(c, i, tidy, r)) == Entries(r) + [EntryAt(c, i)]
  {
    var r' := Carry(c, i, tidy, r);
    forall j | 0 <= j < |r.keys| ensures EntryAt(r', j) == EntryAt(r, j) {
    }
    assert EntryAt(r', |r.keys|) == EntryAt(c, i);
  }

  lemma {:induction false} RebuildKeepsEntries(c: Channel, drop: set<int>, tidy: bool, n: nat)
    requires n <= |c.keys|
    ensures Entries(Rebuild(c, drop, tidy, n)) == Keep(Entries(c), drop, n)
  {
    if n > 0 {
      RebuildKeepsEntries(c, drop, tidy, n - 1);
      var r, i := Rebuild(c, drop, tidy, n - 1), n - 1;
      if i in drop {
        assert Rebuild(c, drop, tidy, n) == r;
      } else {
        assert Rebuild(c, drop, tidy, n) == Carry(c, i, tidy, r);
        CarryKeepsEntries(c, i, tidy, r);
      }
    }
  }

  lemma {:induction false} KeepAllButOne(entries: seq<Entry>, i: int, n: nat)
    requires 0 <= i < |entries| && n <= |entries|
    ensures Keep(entries, {i}, n) == if n <= i then entries[..n] else entries[..i] + entries[i + 1..n]
  {
    if n > 0 {
      KeepAllButOne(entries, i, n - 1);
    }
  }

  lemma UpdateKeepsEntries(stored: Channel, next: Channel)
    requires ValidChannel(next) && next.keys != []
    ensures Updated(stored, next) == next
  {
  }

  /** `delete_key` removes one entry and leaves the text, order and status of all the
      others, whatever their new indices. */
  lemma DeleteKeyRemovesEntry(c: Channel, i: int)
    requires ValidChannel(c) && 0 <= i < |c.keys| && |c.keys| > 1
    ensures Entries(WithoutKey(c, i)) == Entries(c)[..i] + Entries(c)[i + 1..]
    ensures ValidChannel(WithoutKey(c, i))
  {
    var n := |c.keys|;
    RebuildKeepsEntries(c, {i}, false, n);
    KeepAllButOne(Entries(c), i, n);
    RebuildValid(c, {i}, false, n);
    DroppingOne(c, i);
    UpdateKeepsEntries(c, Rebuild(c, {i}, false, n));
    assert Entries(c)[i + 1..n] == Entries(c)[i + 1..];
  }

  lemma DeleteLastKeyRefused(c: Channel, i: int)
    requires 0 <= i < |c.keys| && |c.keys| == 1
    ensures WithoutKey(c, i) == c
  {
    DroppingOne(c, i);
  }

  /** The entries that are not automatically disabled. */
  function Live(entries: seq<Entry>): (r: seq<Entry>)
    ensures |r| <= |entries|
    ensures forall j :: 0 <= j < |r| ==> r[j].status != AUTO_DISABLED
  {
    if entries == [] then []
    else Live(entries[..|entries| - 1]) +
         if entries[|entries| - 1].status == AUTO_DISABLED then [] else [entries[|entries| - 1]]
  }

  ghost predicate SomeKeyLive(c: Channel) {
    exists i :: 0 <= i < |c.keys| && StatusAt(c, i) != AUTO_DISABLED
  }

  lemma {:induction false} KeepIsLive(c: Channel, n: nat)
    requires n <= |c.keys|
    ensures Keep(Entries(c), AutoDisabledIndices(c), n) == Live(Entries(c)[..n])
  {
    if n > 0 {
      KeepIsLive(c, n - 1);
      assert Entries(c)[..n][..n - 1] == Entries(c)[..n - 1];
      assert n - 1 in AutoDisabledIndices(c) <==> StatusAt(c, n - 1) == AUTO_DISABLED;
    }
  }

  lemma {:induction false} LiveMember(entries: seq<Entry>, i: int)
    requires 0 <= i < |entries| && entries[i].status != AUTO_DISABLED
    ensures Live(entries) != []
  {
    if i < |entries| - 1 {
      LiveMember(entries[..|entries| - 1], i);
    }
  }

  lemma {:induction false} AllLive(entries: seq<Entry>)
    requires forall i :: 0 <= i < |entries| ==> entries[i].status != AUTO_DISABLED
    ensures Live(entries) == entries
  {
    if entries != [] {
      AllLive(entries[..|entries| - 1]);
    }
  }

  lemma {:induction false} NoneLive(entries: seq<Entry>)
    requires forall i :: 0 <= i < |entries| ==> entries[i].status == AUTO_DISABLED
    ensures Live(entries) == []
  {
    if entries != [] {
      NoneLive(entries[..|entries| - 1]);
    }
  }

  /** `delete_disabled_keys` keeps exactly the entries that are not automatically
      disabled, in order, when there is one. */
  lemma BulkDeletionKeepsLive(c: Channel)
    requires ValidChannel(c) && SomeKeyLive(c)
    ensures Entries(WithoutAutoDisabled(c)) == Live(Entries(c))
    ensures ValidChannel(WithoutAutoDisabled(c))
  {
    var n, drop := |c.keys|, AutoDisabledIndices(c);
    assert Entries(c)[..n] == Entries(c);
    if drop == {} {
      forall i | 0 <= i < n ensures Entries(c)[i].status != AUTO_DISABLED {
        assert i !in drop;
      }
      AllLive(Entries(c));
    } else {
      RebuildKeepsEntries(c, drop, true, n);
      KeepIsLive(c, n);
      RebuildValid(c, drop, true, n);
      var i :| 0 <= i < n && StatusAt(c, i) != AUTO_DISABLED;
      LiveMember(Entries(c), i);
      UpdateKeepsEntries(c, Rebuild(c, drop, true, n));
    }
  }

  /** When every key is automatically disabled the bulk deletion deletes none: the
      empty key text is not stored, the status maps are, and all keys come back
      enabled. */
  lemma BulkDeletionRevivesAll(c: Channel)
    requires ValidChannel(c) && c.keys != [] && !SomeKeyLive(c)
    ensures WithoutAutoDisabled(c) == Channel(c.keys, |c.keys|, map[], map[], map[])
  {
    assert 0 in AutoDisabledIndices(c);
    NothingRebuilt(c);
    var r := Rebuild(c, AutoDisabledIndices(c), true, |c.keys|);
    RebuildValid(c, AutoDisabledIndices(c), true, |c.keys|);
    EmptyHasNoStatus(r);
  }

  lemma NothingRebuilt(c: Channel)
    requires !SomeKeyLive(c)
    ensures Rebuild(c, AutoDisabledIndices(c), true, |c.keys|).keys == []
  {
    var n, drop := |c.keys|, AutoDisabledIndices(c);
    RebuildKeepsEntries(c, drop, true, n);
    KeepIsLive(c, n);
    assert Entries(c)[..n] == Entries(c);
    NoneLive(Entries(c));
    assert |Entries(Rebuild(c, drop, true, n))| == 0;
  }

  lemma EmptyHasNoStatus(r: Channel)
    requires ValidChannel(r) && r.keys == []
    ensures r.statusList == map[] && r.disabledTime == map[] && r.disabledReason == map[]
  {
    forall i ensures i !in r.statusList && i !in r.disabledTime && i !in r.disabledReason {
    }
  }

  // ---------------------------------------------------------------------
  // Bulk deletion against single deletions
  // ---------------------------------------------------------------------

  /** `delete_key` for every automatically disabled index below `n`, highest first. */
  function DeleteSingly(c: Channel, n: nat): Channel
    decreases n
  {
    if n == 0 then c
    else DeleteSingly(if StatusAt(c, n - 1) == AUTO_DISABLED then WithoutKey(c, n - 1) else c, n - 1)
  }

  /** Deleting an automatically disabled key leaves a live key live. */
  lemma DeletionSparesLive(c: Channel, i: int)
    requires ValidChannel(c) && 0 <= i < |c.keys| && StatusAt(c, i) == AUTO_DISABLED && SomeKeyLive(c)
    ensures Entries(WithoutKey(c, i)) == Entries(c)[..i] + Entries(c)[i + 1..]
    ensures ValidChannel(WithoutKey(c, i)) && SomeKeyLive(WithoutKey(c, i))
  {
    var survivor :| 0 <= survivor < |c.keys| && StatusAt(c, survivor) != AUTO_DISABLED;
    DeleteKeyRemovesEntry(c, i);
    var c' := WithoutKey(c, i);
    var moved := if survivor < i then survivor else survivor - 1;
    assert Entries(c')[moved] == Entries(c)[survivor];
    assert StatusAt(c', moved) != AUTO_DISABLED;
  }

  lemma {:induction false} SinglesKeepLive(c: Channel, n: nat)
    requires ValidChannel(c) && n <= |c.keys|
    requires SomeKeyLive(c)
    ensures Entries(DeleteSingly(c, n)) == Live(Entries(c)[..n]) + Entries(c)[n..]
    decreases n
  {
    var e := Entries(c);
    if n == 0 {
      assert Live(e[..0]) + e[0..] == e;
    } else {
      LiveStep(e, n - 1);
      if StatusAt(c, n - 1) == AUTO_DISABLED {
        DeletionSparesLive(c, n - 1);
        var c' := WithoutKey(c, n - 1);
        assert |c'.keys| == |Entries(c')|;
        SinglesKeepLive(c', n - 1);
        assert DeleteSingly(c, n) == DeleteSingly(c', n - 1);
      } else {
        SinglesKeepLive(c, n - 1);
      }
    }
  }

  lemma LiveStep(e: seq<Entry>, i: int)
    requires 0 <= i < |e|
    ensures e[i].status == AUTO_DISABLED ==>
              var e' := e[..i] + e[i + 1..];
              Live(e'[..i]) + e'[i..] == Live(e[..i + 1]) + e[i + 1..]
    ensures e[i].status != AUTO_DISABLED ==> Live(e[..i]) + e[i..] == Live(e[..i + 1]) + e[i + 1..]
  {
    assert e[..i + 1][..i] == e[..i];
    var e' := e[..i] + e[i + 1..];
    assert e'[..i] == e[..i] && e'[i..] == e[i + 1..];
    assert e[i..] == [e[i]] + e[i + 1..];
  }

  lemma {:induction false} SinglesLeaveOne(c: Channel, n: nat)
    requires ValidChannel(c) && n == |c.keys| > 0 && !SomeKeyLive(c)
    ensures var r := DeleteSingly(c, n); |r.keys| == 1 && StatusAt(r, 0) == AUTO_DISABLED
    decreases n
  {
    var i := n - 1;
    assert StatusAt(c, i) == AUTO_DISABLED;
    if n == 1 {
      DeleteLastKeyRefused(c, 0);
    } else {
      DeleteKeyRemovesEntry(c, i);
      var c' := WithoutKey(c, i);
      assert |c'.keys| == i;
      forall j | 0 <= j < |c'.keys| ensures StatusAt(c', j) == AUTO_DISABLED {
        assert Entries(c')[j] == Entries(c)[j];
        assert StatusAt(c, j) == AUTO_DISABLED;
      }
      SinglesLeaveOne(c', i);
    }
  }

  lemma SameEntriesSameKeys(a: Channel, b: Channel)
    requires Entries(a) == Entries(b)
    ensures a.keys == b.keys
  {
    assert |a.keys| == |Entries(a)| == |b.keys|;
    forall i | 0 <= i < |a.keys| ensures a.keys[i] == b.keys[i] {
      assert a.keys[i] == Entries(a)[i].key;
      assert b.keys[i] == Entries(b)[i].key;
    }
  }

  /** `delete_disabled_keys` shows the same keys as `delete_key` applied to every
      automatically disabled index from the highest to the lowest, if and only if at
      least one key survives. */
  lemma BulkDeletionIsSingles(c: Channel)
    requires ValidChannel(c) && c.keys != []
    ensures SomeKeyLive(c) <==>
            Entries(WithoutAutoDisabled(c)) == Entries(DeleteSingly(c, |c.keys|))
    ensures SomeKeyLive(c) ==>
              && WithoutAutoDisabled(c).keys == DeleteSingly(c, |c.keys|).keys
              && View(Entries(WithoutAutoDisabled(c))) == View(Entries(DeleteSingly(c, |c.keys|)))
  {
    var n := |c.keys|;
    var bulk, singles := WithoutAutoDisabled(c), DeleteSingly(c, n);
    if SomeKeyLive(c) {
      BulkDeletionKeepsLive(c);
      SinglesKeepLive(c, n);
      assert Entries(c)[..n] == Entries(c) && Entries(c)[n..] == [];
      SameEntriesSameKeys(bulk, singles);
    } else {
      BulkDeletionRevivesAll(c);
      SinglesLeaveOne(c, n);
      assert Entries(bulk)[0].status == ENABLED && Entries(singles)[0].status == AUTO_DISABLED;
    }
  }

  // ---------------------------------------------------------------------
  // Every run
  // ---------------------------------------------------------------------

  datatype Action =
    | Disable(keyIndex: int)
    | Enable(keyIndex: int)
    | EnableAll
    | DisableAll
    | Delete(keyIndex: int)
    | DeleteDisabled
    | Fail(usingKey: string, reason: string, now: int)

  /** An accepted and stored action; a refused one or a failed store changes nothing. */
  function Perform(c: Channel, a: Action): Channel {
    match a
    case Disable(i) => if 0 <= i < c.multiKeySize then MultiKey.Disabled(c, i) else c
    case Enable(i) => if 0 <= i < c.multiKeySize then MultiKey.Enabled(c, i) else c
    case EnableAll => AllEnabled(c)
    case DisableAll => AllDisabled(c)
    case Delete(i) => if 0 <= i < c.multiKeySize then WithoutKey(c, i) else c
    case DeleteDisabled => WithoutAutoDisabled(c)
    case Fail(key, reason, now) => AutoDisabled(c, key, reason, now)
  }

  function PerformAll(c: Channel, actions: seq<Action>): Channel
    decreases |actions|
  {
    if actions == [] then c else PerformAll(Perform(c, actions[0]), actions[1..])
  }

  lemma ActionKeepsValid(c: Channel, a: Action)
    requires ValidChannel(c)
    ensures ValidChannel(Perform(c, a))
  {
    match a
    case Delete(i) =>
      if 0 <= i < |c.keys| {
        if |c.keys| > 1 {
          DeleteKeyRemovesEntry(c, i);
        } else {
          DeleteLastKeyRefused(c, i);
        }
      }
    case DeleteDisabled =>
      if SomeKeyLive(c) {
        BulkDeletionKeepsLive(c);
      } else if c.keys != [] {
        BulkDeletionRevivesAll(c);
      } else {
        assert AutoDisabledIndices(c) == {};
      }
    case _ =>
  }

  /** Every run of actions keeps the size equal to the number of keys, every index in
      range and every status one of the three. */
  lemma {:induction false} RunKeepsValid(c: Channel, actions: seq<Action>)
    requires ValidChannel(c)
    ensures ValidChannel(PerformAll(c, actions))
    decreases |actions|
  {
    if actions != [] {
      ActionKeepsValid(c, actions[0]);
      RunKeepsValid(Perform(c, actions[0]), actions[1..]);
    }
  }

  // ---------------------------------------------------------------------
  // The report
  // ---------------------------------------------------------------------

  lemma {:induction false} CountsUpTo(entries: seq<Entry>)
    requires forall i :: 0 <= i < |entries| ==> ENABLED <= entries[i].status <= AUTO_DISABLED
    ensures CountStatus(entries, ENABLED) + CountStatus(entries, MANUALLY_DISABLED) + CountStatus(entries, AUTO_DISABLED) == |entries|
  {
    if entries != [] {
      CountsUpTo(entries[..|entries| - 1]);
    }
  }

  /** The three counts add up to the number of keys, after every run. */
  lemma CountsAddUp(c: Channel, actions: seq<Action>)
    requires ValidChannel(c)
    ensures var e := Entries(PerformAll(c, actions));
            CountStatus(e, ENABLED) + CountStatus(e, MANUALLY_DISABLED) + CountStatus(e, AUTO_DISABLED) == |e|
  {
    RunKeepsValid(c, actions);
    CountsUpTo(Entries(PerformAll(c, actions)));
  }

  /** Pages 1 to n, one after the other. */
  function Pages<T>(list: seq<T>, n: nat, pageSize: int): seq<T>
    requires pageSize >= 1
  {
    if n == 0 then [] else Pages(list, n - 1, pageSize) + PageOf(list, n, pageSize)
  }

  lemma {:induction false} PagesCover<T>(list: seq<T>, n: nat, pageSize: int)
    requires pageSize >= 1
    ensures Pages(list, n, pageSize) == if n * pageSize <= |list| then list[..n * pageSize] else list
  {
    if n > 0 {
      PagesCover(list, n - 1, pageSize);
      var start := (n - 1) * pageSize;
      assert n * pageSize == start + pageSize;
      OneMorePage(list, start, pageSize);
    }
  }

  lemma OneMorePage<T>(list: seq<T>, start: nat, pageSize: int)
    requires pageSize >= 1
    ensures var end := start + pageSize;
            && (end <= |list| ==> list[..start] + list[start..end] == list[..end])
            && (start < |list| < end ==> list[..start] + list[start..|list|] == list)
            && (start == |list| ==> list[..start] == list)
  {
  }

  lemma EnoughPages(n: nat, pageSize: int)
    requires pageSize >= 1
    ensures TotalPages(n, pageSize) * pageSize >= n
  {
    var sum := n + pageSize - 1;
    var q := sum / pageSize;
    assert q * pageSize + sum % pageSize == sum;
    assert q == 0 ==> n == 0;
  }

  /** The pages of a report are the whole filtered list, once and in order. */
  lemma PagesAreTheList<T>(list: seq<T>, pageSize: int)
    requires pageSize >= 1
    ensures Pages(list, TotalPages(|list|, pageSize), pageSize) == list
  {
    var total := TotalPages(|list|, pageSize);
    PagesCover(list, total, pageSize);
    EnoughPages(|list|, pageSize);
    assert list[..|list|] == list;
  }

  /** Every page but the last is full, and only the one page of an empty list is empty. */
  lemma PagesAreFull<T>(list: seq<T>, page: int, pageSize: int)
    requires pageSize >= 1 && 1 <= page <= TotalPages(|list|, pageSize)
    ensures page < TotalPages(|list|, pageSize) ==> |PageOf(list, page, pageSize)| == pageSize
    ensures PageOf(list, page, pageSize) == [] ==> list == [] && page == 1
  {
    NoPageTooMany(|list|, pageSize);
    FullUpTo(list, page, TotalPages(|list|, pageSize), pageSize);
  }

  lemma FullUpTo<T>(list: seq<T>, page: int, total: int, pageSize: int)
    requires pageSize >= 1 && 1 <= page <= total && (total == 1 || (total - 1) * pageSize < |list|)
    ensures page < total ==> |PageOf(list, page, pageSize)| == pageSize
    ensures PageOf(list, page, pageSize) == [] ==> list == [] && page == 1
  {
    PageBefore(page, total, pageSize);
  }

  lemma NoPageTooMany(n: nat, pageSize: int)
    requires pageSize >= 1
    ensures var total := TotalPages(n, pageSize); total == 1 || (total - 1) * pageSize < n
  {
    var sum := n + pageSize - 1;
    var q := sum / pageSize;
    assert q * pageSize <= sum;
    assert (q - 1) * pageSize == q * pageSize - pageSize;
  }

  lemma PageBefore(page: int, total: int, pageSize: int)
    requires pageSize >= 1 && 1 <= page <= total
    ensures (page - 1) * pageSize <= (total - 1) * pageSize
    ensures page < total ==> (page - 1) * pageSize + pageSize <= (total - 1) * pageSize
  {
    NoMorePages(page - 1, total - 1, pageSize);
    if page < total {
      NoMorePages(page, total - 1, pageSize);
      assert page * pageSize == (page - 1) * pageSize + pageSize;
    }
  }

  lemma NoMorePages(a: int, b: int, pageSize: int)
    requires a <= b && pageSize >= 1
    ensures a * pageSize <= b * pageSize
  {
  }

  ghost predicate IndicesAscending(list: seq<KeyStatus>) {
    forall i, j :: 0 <= i < j < |list| ==> list[i].index < list[j].index
  }

  lemma {:induction false} FilterInOrder(all: seq<KeyStatus>, status: int)
    requires IndicesAscending(all)
    ensures IndicesAscending(Filtered(all, Some(status)))
  {
    if all != [] {
      var front, last := all[..|all| - 1], all[|all| - 1];
      FilterInOrder(front, status);
      FilterMembers(front, status);
      forall k | k in front ensures k.index < last.index {
      }
    }
  }

  /** A report shows a key by its index and its text, cut to ten characters and three
      dots when it is longer; a status other than 1 is one that is recorded, and only
      then is there a time or a reason. */
  lemma ReportShows(c: Channel, i: nat)
    requires i < |c.keys|
    ensures var shown, key := View(Entries(c))[i], c.keys[i];
            && shown.index == i
            && (|key| <= 10 ==> shown.keyPreview == key)
            && (|key| > 10 ==> |shown.keyPreview| == 13 && shown.keyPreview[..10] == key[..10] && shown.keyPreview[10..] == "...")
            && (shown.status == 1 <==> i !in c.statusList || c.statusList[i] == 1)
            && (shown.status != 1 ==> i in c.statusList && shown.status == c.statusList[i])
            && (shown.disabledTime != 0 ==> shown.status != 1 && i in c.disabledTime && c.disabledTime[i] == shown.disabledTime)
            && (shown.reason != "" ==> shown.status != 1 && i in c.disabledReason && c.disabledReason[i] == shown.reason)
            && (shown.status != 1 && i in c.disabledTime ==> shown.disabledTime == c.disabledTime[i])
            && (shown.status != 1 && i in c.disabledReason ==> shown.reason == c.disabledReason[i])
  {
    var key := c.keys[i];
    if |key| > 10 {
      assert (key[..10] + "...")[..10] == key[..10] && (key[..10] + "...")[10..] == "...";
    }
    assert View(Entries(c))[i] == Shown(EntryAt(c, i), i);
  }

  /** A report lists its keys by ascending index, filtered or not. */
  lemma ReportInOrder(c: Channel, status: Option<int>)
    ensures IndicesAscending(Filtered(View(Entries(c)), status))
  {
    if status.Some? {
      FilterInOrder(View(Entries(c)), status.value);
    }
  }

  /** A filtered report holds exactly the keys of that status. */
  lemma {:induction false} FilterExact(all: seq<KeyStatus>, status: int, i: nat)
    requires i < |all|
    ensures all[i].status == status <==> all[i] in Filtered(all, Some(status))
    ensures forall k :: k in Filtered(all, Some(status)) ==> k in all && k.status == status
  {
    FilterMembers(all, status);
    if all[i].status == status {
      FilterFinds(all, status, i);
    }
  }

  lemma {:induction false} FilterMembers(all: seq<KeyStatus>, status: int)
    ensures forall k :: k in Filtered(all, Some(status)) ==> k in all && k.status == status
  {
    if all != [] {
      FilterMembers(all[..|all| - 1], status);
    }
  }

  lemma {:induction false} FilterFinds(all: seq<KeyStatus>, status: int, i: nat)
    requires i < |all| && all[i].status == status
    ensures all[i] in Filtered(all, Some(status))
  {
    if i < |all| - 1 {
      FilterFinds(all[..|all| - 1], status, i);
    }
  }
}
