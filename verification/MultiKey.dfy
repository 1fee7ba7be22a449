/** Multi-key channel management (`ManageMultiKeys` of controller/channel.go): a list
    of API keys with three sparse maps from key index to status, disabling time and
    disabling reason, re-indexed whenever keys are deleted. */
module MultiKey {
  import opened Basics
  import opened TextLists

  const ENABLED := 1
  const MANUALLY_DISABLED := 2
  const AUTO_DISABLED := 3
  const DEFAULT_PAGE_SIZE := 50

  /** The stored channel; absent maps are empty maps. */
  datatype Channel = Channel(
    keys: seq<string>,
    multiKeySize: int,
    statusList: map<int, int>,
    disabledTime: map<int, int>,
    disabledReason: map<int, string>)

  datatype Reply =
    | Done
    | Deleted(count: nat)
    | MissingIndex
    | IndexOutOfRange
    | NothingToDisable
    | NothingToDelete
    | LastKey
    | StoreFailed

  function StatusAt(c: Channel, i: int): int {
    if i in c.statusList then c.statusList[i] else ENABLED
  }

  // ---------------------------------------------------------------------
  // What a channel shows
  // ---------------------------------------------------------------------

  /** A key as `get_key_status` reports it, but for its index and the abbreviation. */
  datatype Entry = Entry(key: string, status: int, disabledTime: int, reason: string)

  function EntryAt(c: Channel, i: int): Entry
    requires 0 <= i < |c.keys|
  {
    var status := StatusAt(c, i);
    Entry(c.keys[i], status,
          if status != ENABLED && i in c.disabledTime then c.disabledTime[i] else 0,
          if status != ENABLED && i in c.disabledReason then c.disabledReason[i] else "")
  }

  function Entries(c: Channel): (r: seq<Entry>)
    ensures |r| == |c.keys|
    ensures forall i :: 0 <= i < |r| ==> r[i] == EntryAt(c, i)
  {
    seq(|c.keys|, i requires 0 <= i < |c.keys| => EntryAt(c, i))
  }

  datatype KeyStatus = KeyStatus(index: nat, status: int, disabledTime: int, reason: string, keyPreview: string)

  function Preview(key: string): string {
    if |key| > 10 then key[..10] + "..." else key
  }

  function Shown(e: Entry, i: nat): KeyStatus {
    KeyStatus(i, e.status, e.disabledTime, e.reason, Preview(e.key))
  }

  /** The unfiltered report. */
  function View(entries: seq<Entry>): (r: seq<KeyStatus>)
    ensures |r| == |entries|
    ensures forall i :: 0 <= i < |r| ==> r[i] == Shown(entries[i], i)
  {
    seq(|entries|, i requires 0 <= i < |entries| => Shown(entries[i], i))
  }

  // ---------------------------------------------------------------------
  // The actions
  // ---------------------------------------------------------------------

  /** `Channel.Update`: an empty key text means "keep the stored keys"; the size is
      recounted and statuses beyond it are dropped. */
  function Updated(stored: Channel, next: Channel): Channel {
    var keys := if next.keys == [] then stored.keys else next.keys;
    next.(keys := keys, multiKeySize := |keys|,
          statusList := map i | i in next.statusList && i < |keys| :: next.statusList[i])
  }

  function Disabled(c: Channel, i: int): Channel {
    Updated(c, c.(statusList := c.statusList[i := MANUALLY_DISABLED]))
  }

  function Enabled(c: Channel, i: int): Channel {
    Updated(c, c.(statusList := c.statusList - {i}, disabledTime := c.disabledTime - {i},
                  disabledReason := c.disabledReason - {i}))
  }

  function AllEnabled(c: Channel): Channel {
    Updated(c, c.(statusList := map[], disabledTime := map[], disabledReason := map[]))
  }

  function EnabledIndices(c: Channel): set<int> {
    set i | 0 <= i < c.multiKeySize && StatusAt(c, i) == ENABLED
  }

  function EnabledBelow(c: Channel, n: int): set<int> {
    set i | i in EnabledIndices(c) && i < n
  }

  function WithDisabled(statusList: map<int, int>, indices: set<int>): map<int, int> {
    statusList + map i | i in indices :: MANUALLY_DISABLED
  }

  lemma DisableOneMore(statusList: map<int, int>, indices: set<int>, i: int)
    ensures WithDisabled(statusList, indices + {i}) == WithDisabled(statusList, indices)[i := MANUALLY_DISABLED]
  {
  }

  function DisabledBelow(c: Channel, n: int): map<int, int> {
    WithDisabled(c.statusList, EnabledBelow(c, n))
  }

  lemma EnabledBelowStep(c: Channel, i: int)
    requires 0 <= i < c.multiKeySize
    ensures |EnabledBelow(c, i + 1)| == |EnabledBelow(c, i)| + if StatusAt(c, i) == ENABLED then 1 else 0
    ensures DisabledBelow(c, i + 1) ==
            if StatusAt(c, i) == ENABLED then DisabledBelow(c, i)[i := MANUALLY_DISABLED] else DisabledBelow(c, i)
    ensures i in DisabledBelow(c, i) <==> i in c.statusList
    ensures i in c.statusList ==> DisabledBelow(c, i)[i] == c.statusList[i]
  {
    var before, after := EnabledBelow(c, i), EnabledBelow(c, i + 1);
    if StatusAt(c, i) == ENABLED {
      assert after == before + {i};
      DisableOneMore(c.statusList, before, i);
    } else {
      assert after == before;
    }
  }

  function AllDisabled(c: Channel): Channel {
    Updated(c, c.(statusList := DisabledBelow(c, c.multiKeySize)))
  }

  const NO_KEYS := Channel([], 0, map[], map[], map[])

  /** The first `n` keys without the dropped ones, re-indexed.  An explicit "enabled"
      status is not copied; with `tidy` neither are the time and reason of an enabled
      key. */
  function Rebuild(c: Channel, drop: set<int>, tidy: bool, n: nat): (r: Channel)
    requires n <= |c.keys|
    ensures forall j :: j in r.statusList || j in r.disabledTime || j in r.disabledReason ==> 0 <= j < |r.keys|
  {
    if n == 0 then NO_KEYS
    else
      var r, i := Rebuild(c, drop, tidy, n - 1), n - 1;
      if i in drop then r else Carry(c, i, tidy, r)
  }

  /** Append key `i` of `c` to the keys rebuilt so far. */
  function Carry(c: Channel, i: int, tidy: bool, r: Channel): Channel
    requires 0 <= i < |c.keys|
  {
    var j, details := |r.keys|, !tidy || StatusAt(c, i) != ENABLED;
    Channel(
      r.keys + [c.keys[i]],
      j + 1,
      if StatusAt(c, i) != ENABLED then r.statusList[j := StatusAt(c, i)] else r.statusList,
      if details && i in c.disabledTime then r.disabledTime[j := c.disabledTime[i]] else r.disabledTime,
      if details && i in c.disabledReason then r.disabledReason[j := c.disabledReason[i]] else r.disabledReason)
  }

  /** `delete_key`; the last key cannot be deleted. */
  function WithoutKey(c: Channel, i: int): Channel {
    var rest := Rebuild(c, {i}, false, |c.keys|);
    if rest.keys == [] then c else Updated(c, rest)
  }

  function AutoDisabledIndices(c: Channel): set<int> {
    set i | 0 <= i < |c.keys| && StatusAt(c, i) == AUTO_DISABLED
  }

  function AutoDisabledBelow(c: Channel, n: int): set<int> {
    set i | i in AutoDisabledIndices(c) && i < n
  }

  lemma AutoDisabledBelowStep(c: Channel, i: int)
    requires 0 <= i < |c.keys|
    ensures i in AutoDisabledIndices(c) <==> StatusAt(c, i) == AUTO_DISABLED
    ensures |AutoDisabledBelow(c, i + 1)| == |AutoDisabledBelow(c, i)| + if StatusAt(c, i) == AUTO_DISABLED then 1 else 0
  {
    if StatusAt(c, i) == AUTO_DISABLED {
      assert AutoDisabledBelow(c, i + 1) == AutoDisabledBelow(c, i) + {i};
    } else {
      assert AutoDisabledBelow(c, i + 1) == AutoDisabledBelow(c, i);
    }
  }

  /** `delete_disabled_keys`. */
  function WithoutAutoDisabled(c: Channel): Channel {
    var drop := AutoDisabledIndices(c);
    if drop == {} then c else Updated(c, Rebuild(c, drop, true, |c.keys|))
  }

  /** The first position of a key, or 0 when it is not there (`handlerMultiKeyUpdate`). */
  function PositionOf(keys: seq<string>, key: string): (r: nat)
    ensures keys != [] ==> r < |keys|
    ensures key in keys ==> r < |keys| && keys[r] == key && key !in keys[..r]
    ensures key !in keys ==> r == 0
  {
    if keys == [] then 0
    else if keys[0] == key then 0
    else if key in keys[1..] then
      var r := PositionOf(keys[1..], key) + 1;
      assert keys[..r] == [keys[0]] + keys[1..][..r - 1];
      r
    else 0
  }

  /** A failing key is disabled automatically while requests are served. */
  function AutoDisabled(c: Channel, key: string, reason: string, now: int): Channel {
    if c.keys == [] then c
    else
      var i := PositionOf(c.keys, key);
      c.(statusList := c.statusList[i := AUTO_DISABLED], disabledTime := c.disabledTime[i := now],
         disabledReason := c.disabledReason[i := reason])
  }

  // ---------------------------------------------------------------------
  // The report of get_key_status
  // ---------------------------------------------------------------------

  datatype Response = Response(
    keys: seq<KeyStatus>,
    total: nat,
    page: int,
    pageSize: int,
    totalPages: int,
    enabledCount: nat,
    manualDisabledCount: nat,
    autoDisabledCount: nat)

  function Filtered(all: seq<KeyStatus>, status: Option<int>): seq<KeyStatus> {
    if status.None? then all
    else if all == [] then []
    else
      var front, last := Filtered(all[..|all| - 1], status), all[|all| - 1];
      if last.status == status.value then front + [last] else front
  }

  function TotalPages(total: nat, pageSize: int): (r: int)
    requires pageSize >= 1
    ensures r >= 1
  {
    var pages := (total + pageSize - 1) / pageSize;
    if pages == 0 then 1 else pages
  }

  /** The slice of a page; empty beyond the end. */
  function PageOf<T>(list: seq<T>, page: int, pageSize: int): seq<T>
    requires page >= 1 && pageSize >= 1
  {
    var start := (page - 1) * pageSize;
    if start < |list| then list[start..if start + pageSize > |list| then |list| else start + pageSize] else []
  }

  function CountStatus(entries: seq<Entry>, status: int): nat {
    if entries == [] then 0
    else CountStatus(entries[..|entries| - 1], status) + if entries[|entries| - 1].status == status then 1 else 0
  }

  // ---------------------------------------------------------------------
  // The stored channel as an object
  // ---------------------------------------------------------------------

  /** The loop of `disable_all_keys`. */
  method DisableEnabled(c: Channel) returns (newStatus: map<int, int>, disabledCount: nat)
    requires c.multiKeySize >= 0
    ensures newStatus == DisabledBelow(c, c.multiKeySize)
    ensures disabledCount == |EnabledIndices(c)|
  {
    newStatus := c.statusList;
    disabledCount := 0;
    assert EnabledBelow(c, 0) == {};
    for i := 0 to c.multiKeySize
      invariant newStatus == DisabledBelow(c, i)
      invariant disabledCount == |EnabledBelow(c, i)|
    {
      var status := ENABLED;
      if i in newStatus {
        status := newStatus[i];
      }
      EnabledBelowStep(c, i);
      if status == ENABLED {
        newStatus := newStatus[i := MANUALLY_DISABLED];
        disabledCount := disabledCount + 1;
      }
    }
    assert EnabledBelow(c, c.multiKeySize) == EnabledIndices(c);
  }

  /** The loop of `delete_key`. */
  method DropKey(c: Channel, keyIndex: int) returns (rest: Channel)
    ensures rest == Rebuild(c, {keyIndex}, false, |c.keys|)
  {
    rest := NO_KEYS;
    for i := 0 to |c.keys|
      invariant rest == Rebuild(c, {keyIndex}, false, i)
    {
      if i == keyIndex {
        continue;
      }
      var newIndex := |rest.keys|;
      var status, time, reason := rest.statusList, rest.disabledTime, rest.disabledReason;
      if i in c.statusList && c.statusList[i] != ENABLED {
        status := status[newIndex := c.statusList[i]];
      }
      if i in c.disabledTime {
        time := time[newIndex := c.disabledTime[i]];
      }
      if i in c.disabledReason {
        reason := reason[newIndex := c.disabledReason[i]];
      }
      rest := Channel(rest.keys + [c.keys[i]], newIndex + 1, status, time, reason);
    }
  }

  /** The loop of `delete_disabled_keys`. */
  method DropAutoDisabled(c: Channel) returns (rest: Channel, deletedCount: nat)
    ensures rest == Rebuild(c, AutoDisabledIndices(c), true, |c.keys|)
    ensures deletedCount == |AutoDisabledIndices(c)|
  {
    rest, deletedCount := NO_KEYS, 0;
    for i := 0 to |c.keys|
      invariant rest == Rebuild(c, AutoDisabledIndices(c), true, i)
      invariant deletedCount == |AutoDisabledBelow(c, i)|
    {
      AutoDisabledBelowStep(c, i);
      var status := ENABLED;
      if i in c.statusList {
        status := c.statusList[i];
      }
      if status == AUTO_DISABLED {
        deletedCount := deletedCount + 1;
      } else {
        var newIndex := |rest.keys|;
        var newStatus, time, reason := rest.statusList, rest.disabledTime, rest.disabledReason;
        if status != ENABLED {
          newStatus := newStatus[newIndex := status];
          if i in c.disabledTime {
            time := time[newIndex := c.disabledTime[i]];
          }
          if i in c.disabledReason {
            reason := reason[newIndex := c.disabledReason[i]];
          }
        }
        rest := Channel(rest.keys + [c.keys[i]], newIndex + 1, newStatus, time, reason);
      }
    }
    assert AutoDisabledBelow(c, |c.keys|) == AutoDisabledIndices(c);
  }

  method DescribeKey(c: Channel, i: nat) returns (r: KeyStatus)
    requires i < |c.keys|
    ensures r == Shown(EntryAt(c, i), i)
  {
    var status, disabledTime, reason := ENABLED, 0, "";
    if i in c.statusList {
      status := c.statusList[i];
    }
    if status != ENABLED {
      if i in c.disabledTime {
        disabledTime := c.disabledTime[i];
      }
      if i in c.disabledReason {
        reason := c.disabledReason[i];
      }
    }
    var keyPreview := c.keys[i];
    if |c.keys[i]| > 10 {
      keyPreview := c.keys[i][..10] + "...";
    }
    r := KeyStatus(i, status, disabledTime, reason, keyPreview);
  }

  datatype Counts = Counts(enabled: nat, manual: nat, auto: nat)

  /** The three counts of some entries. */
  ghost predicate AreCounts(n: Counts, entries: seq<Entry>) {
    && n.enabled == CountStatus(entries, ENABLED)
    && n.manual == CountStatus(entries, MANUALLY_DISABLED)
    && n.auto == CountStatus(entries, AUTO_DISABLED)
  }

  lemma CountOneMore(n: Counts, entries: seq<Entry>, i: nat)
    requires i < |entries| && AreCounts(n, entries[..i])
    ensures var status := entries[i].status;
            AreCounts(Counts(n.enabled + if status == ENABLED then 1 else 0,
                             n.manual + if status == MANUALLY_DISABLED then 1 else 0,
                             n.auto + if status == AUTO_DISABLED then 1 else 0), entries[..i + 1])
  {
    assert entries[..i + 1][..i] == entries[..i];
  }

  /** The status of every key and the three counts. */
  method ListKeys(c: Channel) returns (all: seq<KeyStatus>, enabled: nat, manual: nat, auto: nat)
    ensures all == View(Entries(c))
    ensures enabled == CountStatus(Entries(c), ENABLED)
    ensures manual == CountStatus(Entries(c), MANUALLY_DISABLED)
    ensures auto == CountStatus(Entries(c), AUTO_DISABLED)
  {
    all, enabled, manual, auto := [], 0, 0, 0;
    ghost var entries := Entries(c);
    for i := 0 to |c.keys|
      invariant |all| == i && forall k :: 0 <= k < i ==> all[k] == Shown(entries[k], k)
      invariant AreCounts(Counts(enabled, manual, auto), entries[..i])
    {
      CountOneMore(Counts(enabled, manual, auto), entries, i);
      var keyStatus := DescribeKey(c, i);
      if keyStatus.status == ENABLED {
        enabled := enabled + 1;
      } else if keyStatus.status == MANUALLY_DISABLED {
        manual := manual + 1;
      } else if keyStatus.status == AUTO_DISABLED {
        auto := auto + 1;
      }
      all := all + [keyStatus];
    }
    assert entries[..|c.keys|] == entries;
  }

  method FilterByStatus(all: seq<KeyStatus>, status: int) returns (r: seq<KeyStatus>)
    ensures r == Filtered(all, Some(status))
  {
    r := [];
    for i := 0 to |all|
      invariant r == Filtered(all[..i], Some(status))
    {
      assert all[..i + 1][..i] == all[..i];
      if all[i].status == status {
        r := r + [all[i]];
      }
    }
    assert all[..|all|] == all;
  }

  method Paginate<T>(list: seq<T>, page: int, pageSize: int) returns (keys: seq<T>, page': int, totalPages: int)
    requires page >= 1 && pageSize >= 1
    ensures totalPages == TotalPages(|list|, pageSize)
    ensures page' == if page > totalPages then totalPages else page
    ensures keys == PageOf(list, page', pageSize)
  {
    var total := |list|;
    totalPages := (total + pageSize - 1) / pageSize;
    if totalPages == 0 {
      totalPages := 1;
    }
    page' := page;
    if page' > totalPages {
      page' := totalPages;
    }
    keys := SlicePage(list, page', pageSize);
  }

  method SlicePage<T>(list: seq<T>, page: int, pageSize: int) returns (keys: seq<T>)
    requires page >= 1 && pageSize >= 1
    ensures keys == PageOf(list, page, pageSize)
  {
    var start := (page - 1) * pageSize;
    var end := start + pageSize;
    if end > |list| {
      end := |list|;
    }
    keys := [];
    if start < |list| {
      keys := list[start..end];
    }
  }

  /** The clean-up loop of `Channel.Update`; the order of the indices is arbitrary. */
  method DropBeyond(statuses: map<int, int>, size: int) returns (kept: map<int, int>)
    ensures kept == map i | i in statuses && i < size :: statuses[i]
  {
    kept := statuses;
    var indices: set<int> := statuses.Keys;
    while indices != {}
      invariant indices <= statuses.Keys
      invariant kept == map i | i in statuses && (i in indices || i < size) :: statuses[i]
      decreases |indices|
    {
      var idx := Pick(indices);
      if idx >= size {
        kept := kept - {idx};
      }
      indices := indices - {idx};
    }
  }

  class MultiKeyChannel {
    var key: string
    var multiKeySize: int
    var statusList: map<int, int>
    var disabledTime: map<int, int>
    var disabledReason: map<int, string>

    function State(): Channel
      reads this
    {
      Channel(Items(key, '\n'), multiKeySize, statusList, disabledTime, disabledReason)
    }

    ghost predicate Valid()
      reads this
    {
      ValidChannel(State())
    }

    constructor (keys: seq<string>)
      requires AllStorable(keys, '\n')
      ensures Valid() && State() == Channel(keys, |keys|, map[], map[], map[])
    {
      key := Join(keys, '\n');
      multiKeySize := |keys|;
      statusList, disabledTime, disabledReason := map[], map[], map[];
      ItemsRoundTrip(keys, '\n');
    }

    /** `Channel.Update`, or its failure, which leaves the stored channel alone. */
    method Update(newKey: string, newStatus: map<int, int>, newTime: map<int, int>, newReason: map<int, string>, stored: bool)
      modifies this
      ensures State() == if stored then Updated(old(State()), Channel(Items(newKey, '\n'), 0, newStatus, newTime, newReason))
                         else old(State())
    {
      if !stored {
        return;
      }
      if newKey != "" {
        key := newKey;
      }
      var keys := Items(key, '\n');
      assert newKey != "" ==> keys != [];
      multiKeySize := |keys|;
      statusList := DropBeyond(newStatus, multiKeySize);
      disabledTime, disabledReason := newTime, newReason;
    }

    method DisableKey(keyIndex: Option<int>, stored: bool) returns (reply: Reply)
      requires Valid()
      modifies this
      ensures Valid()
      ensures reply.Done? <==> keyIndex.Some? && 0 <= keyIndex.value < |old(State()).keys| && stored
      ensures State() == if reply.Done? then Disabled(old(State()), keyIndex.value) else old(State())
      ensures reply.MissingIndex? <==> keyIndex.None?
      ensures reply.IndexOutOfRange? <==> keyIndex.Some? && !(0 <= keyIndex.value < |old(State()).keys|)
      ensures reply.Done? || reply.MissingIndex? || reply.IndexOutOfRange? || reply.StoreFailed?
    {
      if keyIndex.None? {
        return MissingIndex;
      }
      if keyIndex.value < 0 || keyIndex.value >= multiKeySize {
        return IndexOutOfRange;
      }
      Update(key, statusList[keyIndex.value := MANUALLY_DISABLED], disabledTime, disabledReason, stored);
      return if stored then Done else StoreFailed;
    }

    method EnableKey(keyIndex: Option<int>, stored: bool) returns (reply: Reply)
      requires Valid()
      modifies this
      ensures Valid()
      ensures reply.Done? <==> keyIndex.Some? && 0 <= keyIndex.value < |old(State()).keys| && stored
      ensures State() == if reply.Done? then Enabled(old(State()), keyIndex.value) else old(State())
      ensures reply.MissingIndex? <==> keyIndex.None?
      ensures reply.IndexOutOfRange? <==> keyIndex.Some? && !(0 <= keyIndex.value < |old(State()).keys|)
      ensures reply.Done? || reply.MissingIndex? || reply.IndexOutOfRange? || reply.StoreFailed?
    {
      if keyIndex.None? {
        return MissingIndex;
      }
      if keyIndex.value < 0 || keyIndex.value >= multiKeySize {
        return IndexOutOfRange;
      }
      Update(key, statusList - {keyIndex.value}, disabledTime - {keyIndex.value}, disabledReason - {keyIndex.value}, stored);
      return if stored then Done else StoreFailed;
    }

    method EnableAllKeys(stored: bool) returns (reply: Reply)
      requires Valid()
      modifies this
      ensures Valid()
      ensures State() == if stored then AllEnabled(old(State())) else old(State())
      ensures reply == if stored then Done else StoreFailed
    {
      Update(key, map[], map[], map[], stored);
      return if stored then Done else StoreFailed;
    }

    method DisableAllKeys(stored: bool) returns (reply: Reply)
      requires Valid()
      modifies this
      ensures Valid()
      ensures reply == if EnabledIndices(old(State())) == {} then NothingToDisable else if stored then Done else StoreFailed
      ensures State() == if reply.Done? then AllDisabled(old(State())) else old(State())
    {
      var newStatus, disabledCount := DisableEnabled(State());
      if disabledCount == 0 {
        return NothingToDisable;
      }
      Update(key, newStatus, disabledTime, disabledReason, stored);
      return if stored then Done else StoreFailed;
    }

    method DeleteKey(keyIndex: Option<int>, stored: bool) returns (reply: Reply)
      requires Valid()
      modifies this
      ensures Valid()
      ensures reply == if keyIndex.None? then MissingIndex
                       else if !(0 <= keyIndex.value < |old(State()).keys|) then IndexOutOfRange
                       else if |old(State()).keys| == 1 then LastKey
                       else if stored then Done else StoreFailed
      ensures State() == if reply.Done? then WithoutKey(old(State()), keyIndex.value) else old(State())
    {
      if keyIndex.None? {
        return MissingIndex;
      }
      if keyIndex.value < 0 || keyIndex.value >= multiKeySize {
        return IndexOutOfRange;
      }
      var rest := DropKey(State(), keyIndex.value);
      RebuildValid(State(), {keyIndex.value}, false, |State().keys|);
      DroppingOne(State(), keyIndex.value);
      if |rest.keys| == 0 {
        return LastKey;
      }
      ItemsRoundTrip(rest.keys, '\n');
      Update(Join(rest.keys, '\n'), rest.statusList, rest.disabledTime, rest.disabledReason, stored);
      return if stored then Done else StoreFailed;
    }

    method DeleteDisabledKeys(stored: bool) returns (reply: Reply)
      requires Valid()
      modifies this
      ensures Valid()
      ensures reply == var count := |AutoDisabledIndices(old(State()))|;
                       if count == 0 then NothingToDelete else if stored then Deleted(count) else StoreFailed
      ensures State() == if reply.Deleted? then WithoutAutoDisabled(old(State())) else old(State())
    {
      var rest, deletedCount := DropAutoDisabled(State());
      RebuildValid(State(), AutoDisabledIndices(State()), true, |State().keys|);
      if deletedCount == 0 {
        return NothingToDelete;
      }
      ItemsRoundTrip(rest.keys, '\n');
      Update(Join(rest.keys, '\n'), rest.statusList, rest.disabledTime, rest.disabledReason, stored);
      return if stored then Deleted(deletedCount) else StoreFailed;
    }

    /** `handlerMultiKeyUpdate` with the auto-disabled status, then a save. */
    method AutoDisable(usingKey: string, reason: string, now: int, stored: bool)
      requires Valid()
      modifies this
      ensures Valid()
      ensures State() == if stored then AutoDisabled(old(State()), usingKey, reason, now) else old(State())
    {
      var keys := Items(key, '\n');
      if |keys| == 0 || !stored {
        return;
      }
      var keyIndex := 0;
      for i := 0 to |keys|
        invariant usingKey !in keys[..i] && keyIndex == 0
      {
        if keys[i] == usingKey {
          keyIndex := i;
          break;
        }
        assert keys[..i + 1] == keys[..i] + [keys[i]];
      }
      assert keys[..|keys|] == keys;
      PositionIs(keys, usingKey, keyIndex);
      statusList := statusList[keyIndex := AUTO_DISABLED];
      disabledReason := disabledReason[keyIndex := reason];
      disabledTime := disabledTime[keyIndex := now];
    }

    /** `get_key_status`. */
    method GetKeyStatus(page: int, pageSize: int, status: Option<int>) returns (r: Response)
      ensures r.pageSize == if pageSize <= 0 then 50 else pageSize
      ensures r.total == |Filtered(View(Entries(State())), status)|
      ensures r.totalPages == TotalPages(r.total, r.pageSize)
      ensures r.page == if page <= 0 then 1 else if page > r.totalPages then r.totalPages else page
      ensures r.keys == PageOf(Filtered(View(Entries(State())), status), r.page, r.pageSize)
      ensures r.enabledCount == CountStatus(Entries(State()), ENABLED)
      ensures r.manualDisabledCount == CountStatus(Entries(State()), MANUALLY_DISABLED)
      ensures r.autoDisabledCount == CountStatus(Entries(State()), AUTO_DISABLED)
    {
      var page' := if page <= 0 then 1 else page;
      var size := if pageSize <= 0 then DEFAULT_PAGE_SIZE else pageSize;
      var all, enabled, manual, auto := ListKeys(State());
      var filtered := all;
      if status.Some? {
        filtered := FilterByStatus(all, status.value);
      }
      var keys, page'', totalPages := Paginate(filtered, page', size);
      r := Response(keys, |filtered|, page'', size, totalPages, enabled, manual, auto);
    }
  }

  ghost predicate InRange<T>(m: map<int, T>, n: int) {
    forall i :: i in m ==> 0 <= i < n
  }

  /** The invariant: the size is the number of keys, every index is that of a key,
      every status is one of the three. */
  ghost predicate ValidChannel(c: Channel) {
    && AllStorable(c.keys, '\n')
    && c.multiKeySize == |c.keys|
    && InRange(c.statusList, |c.keys|) && InRange(c.disabledTime, |c.keys|) && InRange(c.disabledReason, |c.keys|)
    && forall i :: i in c.statusList ==> ENABLED <= c.statusList[i] <= AUTO_DISABLED
  }

  lemma {:induction false} RebuildValid(c: Channel, drop: set<int>, tidy: bool, n: nat)
    requires ValidChannel(c) && n <= |c.keys|
    ensures ValidChannel(Rebuild(c, drop, tidy, n))
  {
    if n > 0 {
      RebuildValid(c, drop, tidy, n - 1);
    }
  }

  /** Dropping one index of n keys leaves n - 1 of them. */
  lemma {:induction false} DroppingOneUpTo(c: Channel, i: int, n: nat)
    requires 0 <= i < |c.keys| && n <= |c.keys|
    ensures |Rebuild(c, {i}, false, n).keys| == if n <= i then n else n - 1
  {
    if n > 0 {
      DroppingOneUpTo(c, i, n - 1);
    }
  }

  lemma DroppingOne(c: Channel, i: int)
    requires 0 <= i < |c.keys|
    ensures |Rebuild(c, {i}, false, |c.keys|).keys| == |c.keys| - 1
  {
    DroppingOneUpTo(c, i, |c.keys|);
  }

  lemma {:induction false} PositionIs(keys: seq<string>, key: string, i: nat)
    requires i < |keys| && key !in keys[..i] && (keys[i] == key || (key !in keys && i == 0))
    ensures PositionOf(keys, key) == i
  {
  }
}
