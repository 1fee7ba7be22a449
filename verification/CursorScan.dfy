/** The batch loops over all enabled channels (controller/channel_upstream_update.go):
    each query takes the next ids above a cursor, in ascending order and at most a
    batch of them.  Channels may be enabled, disabled, created or deleted between two
    queries, so every query may see another set of ids. */
module CursorScan {
  import opened Basics

  ghost predicate Ascending(ids: seq<int>) {
    forall i, j :: 0 <= i < j < |ids| ==> ids[i] < ids[j]
  }

  /** `SELECT ... WHERE id > lastID ORDER BY id LIMIT batchSize`: the lowest ids above
      the cursor, all of them if there are fewer than a batch. */
  ghost predicate IsBatch(batch: seq<int>, table: set<int>, lastID: int, batchSize: nat) {
    && Ascending(batch) && |batch| <= batchSize
    && (forall i :: 0 <= i < |batch| ==> batch[i] in table && batch[i] > lastID)
    && (forall id :: id in table && id > lastID && id !in batch ==>
          |batch| == batchSize && forall i :: 0 <= i < |batch| ==> batch[i] < id)
  }

  method Least(ids: set<int>) returns (least: int)
    requires ids != {}
    ensures least in ids && forall id :: id in ids ==> least <= id
  {
    least := Pick(ids);
    var rest := ids - {least};
    while rest != {}
      invariant rest <= ids && least in ids
      invariant forall id :: id in ids && id !in rest ==> least <= id
      decreases |rest|
    {
      var id := Pick(rest);
      rest := rest - {id};
      if id < least {
        least := id;
      }
    }
  }

  /** `findEnabledChannelsAfterID`; ids are positive, so a cursor of 0 is no limit. */
  method FindAfter(table: set<int>, lastID: int, batchSize: nat) returns (batch: seq<int>)
    requires lastID >= 0 && forall id :: id in table ==> id > 0
    ensures IsBatch(batch, table, lastID, batchSize)
  {
    var rest := if lastID > 0 then set id | id in table && id > lastID else table;
    ghost var all := rest;
    batch := [];
    while |batch| < batchSize && rest != {}
      invariant Ascending(batch) && |batch| <= batchSize && rest <= all
      invariant forall i :: 0 <= i < |batch| ==> batch[i] in all && batch[i] !in rest
      invariant forall id :: id in all && id !in rest ==> id in batch
      invariant forall i, id :: 0 <= i < |batch| && id in rest ==> batch[i] < id
      decreases |rest|
    {
      var id := Least(rest);
      batch := batch + [id];
      rest := rest - {id};
    }
  }

  /** An id that every query so far could see. */
  ghost predicate EnabledThroughout(tables: nat -> set<int>, queries: nat, id: int) {
    queries > 0 && forall k :: 0 <= k < queries ==> id in tables(k)
  }

  ghost predicate SeenBy(tables: nat -> set<int>, queries: nat, id: int) {
    exists k :: 0 <= k < queries && id in tables(k)
  }

  /** Everything up to the cursor has been dealt with. */
  ghost predicate Covered(tables: nat -> set<int>, queries: nat, processed: seq<int>, lastID: int) {
    && lastID >= 0
    && Ascending(processed)
    && (forall i :: 0 <= i < |processed| ==> 0 < processed[i] <= lastID && SeenBy(tables, queries, processed[i]))
    && (forall id :: 0 < id <= lastID && EnabledThroughout(tables, queries, id) ==> id in processed)
  }

  lemma SeenLater(tables: nat -> set<int>, queries: nat, id: int)
    ensures SeenBy(tables, queries, id) ==> SeenBy(tables, queries + 1, id)
    ensures id in tables(queries) ==> SeenBy(tables, queries + 1, id)
    ensures EnabledThroughout(tables, queries + 1, id) ==> id in tables(queries)
    ensures queries > 0 && EnabledThroughout(tables, queries + 1, id) ==> EnabledThroughout(tables, queries, id)
  {
  }

  /** One more batch, and the cursor on its last id. */
  lemma BatchCovers(tables: nat -> set<int>, queries: nat, processed: seq<int>, lastID: int, batch: seq<int>, batchSize: nat)
    requires Covered(tables, queries, processed, lastID) && (queries == 0 ==> lastID == 0)
    requires IsBatch(batch, tables(queries), lastID, batchSize) && batch != []
    ensures Covered(tables, queries + 1, processed + batch, batch[|batch| - 1])
  {
    var next, all := batch[|batch| - 1], processed + batch;
    forall i | 0 <= i < |all| ensures 0 < all[i] <= next && SeenBy(tables, queries + 1, all[i]) {
      SeenLater(tables, queries, all[i]);
    }
    forall id | 0 < id <= next && EnabledThroughout(tables, queries + 1, id) ensures id in all {
      SeenLater(tables, queries, id);
    }
  }

  /** A short batch is the last one: nothing that stayed enabled is missing. */
  lemma ShortBatchCompletes(tables: nat -> set<int>, queries: nat, processed: seq<int>, lastID: int, batch: seq<int>, batchSize: nat)
    requires Covered(tables, queries, processed, lastID) && (queries == 0 ==> lastID == 0)
    requires IsBatch(batch, tables(queries), lastID, batchSize) && |batch| < batchSize
    requires forall id :: id in tables(queries) ==> id > 0
    ensures forall id :: EnabledThroughout(tables, queries + 1, id) ==> id in processed + batch
  {
    forall id | EnabledThroughout(tables, queries + 1, id) ensures id in processed + batch {
      SeenLater(tables, queries, id);
    }
  }

  ghost function Above(universe: set<int>, lastID: int): set<int> {
    set id | id in universe && id > lastID
  }

  lemma CursorAdvances(universe: set<int>, lastID: int, next: int)
    requires next in universe && next > lastID
    ensures |Above(universe, next)| < |Above(universe, lastID)|
  {
    SubsetSize(Above(universe, next), Above(universe, lastID) - {next});
  }

  /** The loop.  Query `k` sees the enabled ids `tables(k)`, or fails.  It ends, visits
      ids in ascending order and none twice, and unless a query failed it visits every
      channel that was enabled throughout. */
  method Scan(tables: nat -> set<int>, fails: nat -> bool, batchSize: nat, ghost universe: set<int>)
    returns (processed: seq<int>, queries: nat, complete: bool)
    requires batchSize >= 1
    requires forall k: nat :: tables(k) <= universe
    requires forall id :: id in universe ==> id > 0
    ensures Ascending(processed)
    ensures forall i :: 0 <= i < |processed| ==> SeenBy(tables, queries, processed[i])
    ensures complete ==> forall id :: EnabledThroughout(tables, queries, id) ==> id in processed
    ensures complete <==> queries > 0 && !fails(queries - 1)
  {
    processed, queries, complete := [], 0, false;
    var lastID := 0;
    while true
      invariant !complete && Covered(tables, queries, processed, lastID)
      invariant queries == 0 ==> lastID == 0
      decreases |Above(universe, lastID)|
    {
      if fails(queries) {
        forall i | 0 <= i < |processed| ensures SeenBy(tables, queries + 1, processed[i]) {
          SeenLater(tables, queries, processed[i]);
        }
        queries := queries + 1;
        break;
      }
      var channels := FindAfter(tables(queries), lastID, batchSize);
      if |channels| < batchSize {
        ShortBatchCompletes(tables, queries, processed, lastID, channels, batchSize);
      }
      if |channels| == 0 {
        assert processed + channels == processed;
        forall i | 0 <= i < |processed| ensures SeenBy(tables, queries + 1, processed[i]) {
          SeenLater(tables, queries, processed[i]);
        }
        queries, complete := queries + 1, true;
        break;
      }
      BatchCovers(tables, queries, processed, lastID, channels, batchSize);
      assert tables(queries) <= universe;
      CursorAdvances(universe, lastID, channels[|channels| - 1]);
      lastID := channels[|channels| - 1];
      processed := processed + channels;
      queries := queries + 1;
      if |channels| < batchSize {
        complete := true;
        break;
      }
    }
  }

  /** With one unchanging table the visited ids are the enabled ones, each exactly once. */
  lemma FixedTableVisitedOnce(table: set<int>, processed: seq<int>, queries: nat)
    requires Ascending(processed) && queries > 0
    requires forall i :: 0 <= i < |processed| ==> SeenBy(_ => table, queries, processed[i])
    requires forall id :: EnabledThroughout(_ => table, queries, id) ==> id in processed
    ensures (set id | id in processed) == table && |processed| == |table|
  {
    assert forall id :: id in table ==> EnabledThroughout(_ => table, queries, id);
    DistinctSize(processed);
  }

  lemma {:induction false} DistinctSize(ids: seq<int>)
    requires Ascending(ids)
    ensures |set id | id in ids| == |ids|
  {
    if ids != [] {
      var front, last := ids[..|ids| - 1], ids[|ids| - 1];
      DistinctSize(front);
      assert (set id | id in ids) == (set id | id in front) + {last};
    }
  }
}
