/**
 The Host's timeline window and its older pages.
 */
module Pagination {
  import opened Options
  import opened AuthorityTables
  import opened AuthorityOperations
  import opened AuthorityInvariants
  import opened AuthorityHistory

  const WINDOW_SIZE := 100
  const MAX_PAGE_SIZE := 200

  /** The identities of a Session's rows, in order. */
  function RowIds(entries: seq<Entry>, s: SessionId): seq<EntryId> {
    if entries == [] then []
    else
      var front := RowIds(entries[..|entries| - 1], s);
      if entries[|entries| - 1].session == s then front + [|entries| - 1] else front
  }

  lemma {:induction false} RowIdsAreRows(entries: seq<Entry>, s: SessionId)
    ensures var ids := RowIds(entries, s);
            && |ids| == |Timeline(entries, s)|
            && (forall k :: 0 <= k < |ids| ==> ids[k] < |entries| && entries[ids[k]].session == s)
            && (forall j, k :: 0 <= j < k < |ids| ==> ids[j] < ids[k])
    ensures forall i: EntryId :: i < |entries| && entries[i].session == s ==> i in RowIds(entries, s)
  {
    if entries != [] {
      RowIdsAreRows(entries[..|entries| - 1], s);
    }
  }

  /** Row i is the Session's k-th, counting from 0. */
  predicate OrderedAs(entries: seq<Entry>, s: SessionId, i: EntryId, k: int) {
    i < |entries| && entries[i].session == s && entries[i].order == k + 1
  }

  /** In a dense table the k-th row of a timeline has order k + 1. */
  lemma {:induction false} RowIdsOrders(entries: seq<Entry>, s: SessionId)
    requires Dense(entries)
    ensures forall k :: 0 <= k < |RowIds(entries, s)| ==> OrderedAs(entries, s, RowIds(entries, s)[k], k)
  {
    if entries != [] {
      var front := entries[..|entries| - 1];
      DenseFront(entries);
      RowIdsOrders(front, s);
      RowIdsAreRows(front, s);
      assert entries[|entries| - 1].session == s ==> entries[|entries| - 1].order == |Timeline(front, s)| + 1;
    }
  }

  lemma OrderIsPlace(entries: seq<Entry>, i: EntryId)
    requires Dense(entries) && i < |entries|
    ensures entries[i].order == |Timeline(entries[..i], entries[i].session)| + 1
  {}

  lemma {:induction false} RowsBefore(entries: seq<Entry>, i: nat, j: nat, s: SessionId)
    requires i <= j <= |entries|
    ensures |Timeline(entries[..i], s)| <= |Timeline(entries[..j], s)|
    decreases j - i
  {
    if i < j {
      RowsBefore(entries, i, j - 1, s);
      assert entries[..j][..j - 1] == entries[..j - 1];
    }
  }

  // ---------------------------------------------------------------- the window

  /** SELECT ... ORDER BY entry_order DESC LIMIT 100, reversed. */
  function WindowIds(entries: seq<Entry>, s: SessionId): seq<EntryId> {
    var ids := RowIds(entries, s);
    if |ids| <= WINDOW_SIZE then ids else ids[|ids| - WINDOW_SIZE..]
  }

  lemma WindowIdsAreRows(entries: seq<Entry>, s: SessionId)
    ensures forall k :: 0 <= k < |WindowIds(entries, s)| ==>
              WindowIds(entries, s)[k] < |entries| && entries[WindowIds(entries, s)[k]].session == s
  {
    RowIdsAreRows(entries, s);
  }

  lemma WindowIdsAscend(entries: seq<Entry>, s: SessionId)
    requires Dense(entries)
    ensures var ids := WindowIds(entries, s);
            && (forall k :: 0 <= k < |ids| ==> ids[k] < |entries|)
            && forall j, k :: 0 <= j < k < |ids| ==> entries[ids[j]].order < entries[ids[k]].order
  {
    RowIdsOrders(entries, s);
    var all, ids := RowIds(entries, s), WindowIds(entries, s);
    var skipped := |all| - |ids|;
    forall k | 0 <= k < |ids|
      ensures ids[k] < |entries| && entries[ids[k]].order == skipped + k + 1
    {
      assert ids[k] == all[skipped + k];
      assert OrderedAs(entries, s, all[skipped + k], skipped + k);
    }
  }

  // ---------------------------------------------------------------- older pages

  /** The finalized rows of a Session whose order lies in [low, high), in order. */
  function FinalizedBetween(entries: seq<Entry>, s: SessionId, low: nat, high: nat): seq<EntryId> {
    if entries == [] then []
    else
      var front := FinalizedBetween(entries[..|entries| - 1], s, low, high);
      var last := entries[|entries| - 1];
      if last.session == s && last.finalized && low <= last.order < high then front + [|entries| - 1] else front
  }

  datatype TimelineCursor = TimelineCursor(epoch: nat, session: SessionId, before: nat)

  datatype Page = Page(ids: seq<EntryId>, older: Option<TimelineCursor>)

  function PageLimit(requested: int): nat {
    if requested > MAX_PAGE_SIZE then MAX_PAGE_SIZE else if requested < 1 then 1 else requested
  }

  /** createTimelineWindow: a cursor to what lies before the first row, if a finalized row does. */
  function Paged(db: Db, s: SessionId, ids: seq<EntryId>): Page
    requires forall k :: 0 <= k < |ids| ==> ids[k] < |db.entries|
  {
    if ids == [] || FinalizedBetween(db.entries, s, 0, db.entries[ids[0]].order) == [] then Page(ids, None)
    else Page(ids, Some(TimelineCursor(db.epoch, s, db.entries[ids[0]].order)))
  }

  function TimelineWindow(db: Db, s: SessionId): Page {
    WindowIdsAreRows(db.entries, s);
    Paged(db, s, WindowIds(db.entries, s))
  }

  /** timelinePage; a cursor of another epoch or Session answers nothing. */
  function TimelinePage(db: Db, s: SessionId, cursor: TimelineCursor, requested: int): Option<Page> {
    if cursor.epoch != db.epoch || cursor.session != s then None
    else
      var older := FinalizedBetween(db.entries, s, 0, cursor.before);
      var limit := PageLimit(requested);
      FinalizedRows(db.entries, s, 0, cursor.before);
      Some(Paged(db, s, if |older| <= limit then older else older[|older| - limit..]))
  }

  // ---------------------------------------------------------------- rows between orders

  lemma {:induction false} FinalizedRows(entries: seq<Entry>, s: SessionId, low: nat, high: nat)
    ensures forall k :: 0 <= k < |FinalizedBetween(entries, s, low, high)|
              ==> FinalizedBetween(entries, s, low, high)[k] < |entries|
                  && entries[FinalizedBetween(entries, s, low, high)[k]].session == s
                  && low <= entries[FinalizedBetween(entries, s, low, high)[k]].order < high
    ensures forall i: EntryId :: i in FinalizedBetween(entries, s, low, high) <==>
              i < |entries| && entries[i].session == s && entries[i].finalized && low <= entries[i].order < high
  {
    if entries != [] {
      FinalizedRows(entries[..|entries| - 1], s, low, high);
    }
  }

  /** Orders in a dense table do not pass the number of rows. */
  lemma {:induction false} OrdersAreBounded(entries: seq<Entry>, s: SessionId)
    requires Dense(entries)
    ensures forall i :: 0 <= i < |entries| && entries[i].session == s ==> 1 <= entries[i].order <= |Timeline(entries, s)|
  {
    if entries != [] {
      var front := entries[..|entries| - 1];
      DenseFront(entries);
      OrdersAreBounded(front, s);
      assert forall i :: 0 <= i < |front| ==> front[i] == entries[i];
      assert entries[|entries| - 1].session == s ==> entries[|entries| - 1].order == |Timeline(front, s)| + 1;
    }
  }

  lemma {:induction false} FinalizedAscend(entries: seq<Entry>, s: SessionId, low: nat, high: nat)
    requires Dense(entries)
    ensures forall k :: 0 <= k < |FinalizedBetween(entries, s, low, high)|
              ==> FinalizedBetween(entries, s, low, high)[k] < |entries|
    ensures forall j, k :: 0 <= j < k < |FinalizedBetween(entries, s, low, high)|
              ==> entries[FinalizedBetween(entries, s, low, high)[j]].order
                  < entries[FinalizedBetween(entries, s, low, high)[k]].order
  {
    FinalizedRows(entries, s, low, high);
    if entries != [] {
      var n := |entries| - 1;
      var front := entries[..n];
      DenseFront(entries);
      FinalizedAscend(front, s, low, high);
      FinalizedRows(front, s, low, high);
      OrdersAreBounded(front, s);
      assert entries[n].session == s ==> entries[n].order == |Timeline(front, s)| + 1;
    }
  }

  lemma {:induction false} NoneBeyond(entries: seq<Entry>, s: SessionId, low: nat, high: nat)
    requires forall i :: 0 <= i < |entries| && entries[i].session == s ==> entries[i].order < low || entries[i].order >= high
    ensures FinalizedBetween(entries, s, low, high) == []
  {
    if entries != [] {
      NoneBeyond(entries[..|entries| - 1], s, low, high);
    }
  }

  lemma {:induction false} FinalizedSplits(entries: seq<Entry>, s: SessionId, low: nat, mid: nat, high: nat)
    requires Dense(entries) && low <= mid <= high
    ensures FinalizedBetween(entries, s, low, high)
         == FinalizedBetween(entries, s, low, mid) + FinalizedBetween(entries, s, mid, high)
  {
    if entries != [] {
      var n := |entries| - 1;
      var front := entries[..n];
      DenseFront(entries);
      FinalizedSplits(front, s, low, mid, high);
      if entries[n].session == s && entries[n].order < mid {
        OrdersAreBounded(front, s);
        assert entries[n].order == |Timeline(front, s)| + 1;
        NoneBeyond(front, s, mid, high);
      }
    }
  }

  // ---------------------------------------------------------------- one page

  /** The rows before the k-th finalized row are exactly the finalized rows of lower order. */
  lemma {:induction false} RowsBelowRow(entries: seq<Entry>, s: SessionId, before: nat, k: nat)
    requires Dense(entries) && k < |FinalizedBetween(entries, s, 0, before)|
    ensures var i := FinalizedBetween(entries, s, 0, before)[k];
            && i < |entries| && 1 <= entries[i].order < before
            && FinalizedBetween(entries, s, 0, entries[i].order) == FinalizedBetween(entries, s, 0, before)[..k]
  {
    var n := |entries| - 1;
    var front := entries[..n];
    DenseFront(entries);
    OrdersAreBounded(entries, s);
    FinalizedRows(entries, s, 0, before);
    if k < |FinalizedBetween(front, s, 0, before)| {
      RowsBelowRow(front, s, before, k);
      FinalizedRows(front, s, 0, before);
      OrdersAreBounded(front, s);
      assert entries[n].session == s ==> entries[n].order == |Timeline(front, s)| + 1;
    } else {
      OrdersAreBounded(front, s);
      assert entries[n].order == |Timeline(front, s)| + 1;
      FinalizedSplits(front, s, 0, entries[n].order, before);
      NoneBeyond(front, s, entries[n].order, before);
    }
  }

  /** The rows from the k-th on are the finalized rows from its order to the cursor. */
  lemma RowsFromRow(entries: seq<Entry>, s: SessionId, before: nat, k: nat) returns (low: nat)
    requires Dense(entries) && k < |FinalizedBetween(entries, s, 0, before)|
    ensures var older := FinalizedBetween(entries, s, 0, before);
            && older[k] < |entries| && low == entries[older[k]].order && 1 <= low < before
            && older[k..] == FinalizedBetween(entries, s, low, before)
            && FinalizedBetween(entries, s, 0, low) == older[..k]
  {
    RowsBelowRow(entries, s, before, k);
    var older := FinalizedBetween(entries, s, 0, before);
    low := entries[older[k]].order;
    FinalizedSplits(entries, s, 0, low, before);
  }

  /** What one page covers: the finalized rows of [low, before), and nothing is left below a last page. */
  ghost predicate Covers(db: Db, s: SessionId, page: Page, low: nat, before: nat) {
    && low <= before
    && page.ids == FinalizedBetween(db.entries, s, low, before)
    && match page.older
       case Some(cursor) => cursor == TimelineCursor(db.epoch, s, low) && low < before
       case None => low == 0
  }

  lemma PageCovers(db: Db, s: SessionId, cursor: TimelineCursor, requested: int) returns (low: nat)
    requires Dense(db.entries) && cursor.epoch == db.epoch && cursor.session == s
    ensures TimelinePage(db, s, cursor, requested).Some?
    ensures Covers(db, s, TimelinePage(db, s, cursor, requested).value, low, cursor.before)
    ensures low > 0 ==> TimelinePage(db, s, cursor, requested).value.ids != []
  {
    var older := FinalizedBetween(db.entries, s, 0, cursor.before);
    var limit := PageLimit(requested);
    FinalizedRows(db.entries, s, 0, cursor.before);
    if |older| <= limit {
      low := 0;
      if older != [] {
        var first := RowsFromRow(db.entries, s, cursor.before, 0);
      }
    } else {
      low := RowsFromRow(db.entries, s, cursor.before, |older| - limit);
      assert older[|older| - limit..][0] == older[|older| - limit];
      assert older[..|older| - limit] != [];
    }
  }

  /** A window is the last hundred rows of a timeline, or all of them. */
  lemma WindowIsTheEnd(db: Db, s: SessionId)
    requires Dense(db.entries)
    ensures var ids, n := TimelineWindow(db, s).ids, |Timeline(db.entries, s)|;
            && |ids| == (if n <= 100 then n else 100)
            && forall k :: 0 <= k < |ids| ==> ids[k] < |db.entries| && db.entries[ids[k]].session == s
                                              && db.entries[ids[k]].order == n - |ids| + k + 1
  {
    RowIdsAreRows(db.entries, s);
    RowIdsOrders(db.entries, s);
    var all, ids := RowIds(db.entries, s), WindowIds(db.entries, s);
    var skipped := |all| - |ids|;
    forall k | 0 <= k < |ids|
      ensures ids[k] < |db.entries| && db.entries[ids[k]].session == s && db.entries[ids[k]].order == skipped + k + 1
    {
      assert ids[k] == all[skipped + k] && OrderedAs(db.entries, s, all[skipped + k], skipped + k);
    }
    hide RowIds, Dense, OrderedAs;
  }

  /**
   A page holds as many of the finalized rows below its cursor as asked for, one at least and two hundred at
   most, taken from the end of them; a cursor of another epoch or Session gets none.
   */
  lemma PageHasItsSize(db: Db, s: SessionId, cursor: TimelineCursor, requested: int)
    ensures TimelinePage(db, s, cursor, requested).None? <==> cursor.epoch != db.epoch || cursor.session != s
    ensures TimelinePage(db, s, cursor, requested).Some? ==>
              var below, ids := FinalizedBetween(db.entries, s, 0, cursor.before), TimelinePage(db, s, cursor, requested).value.ids;
              && |ids| <= |below| && ids == below[|below| - |ids|..] && |ids| <= 200
              && (|ids| < |below| ==> |ids| >= 1 && (|ids| == requested || (requested < 1 && |ids| == 1) || (requested > 200 && |ids| == 200)))
              && (1 <= requested ==> |ids| <= requested)
  {
    FinalizedRows(db.entries, s, 0, cursor.before);
    hide FinalizedBetween;
  }

  // ---------------------------------------------------------------- following the cursor

  /** A request for the next older page: when in the history it is served, and its limit. */
  datatype Request = Request(at: nat, limit: int)

  ghost predicate Served(states: seq<World>, requests: seq<Request>, epoch: nat) {
    && (forall m :: 0 <= m < |requests| ==> requests[m].at < |states| && states[requests[m].at].db.epoch == epoch)
    && (forall l, m :: 0 <= l < m < |requests| ==> requests[l].at <= requests[m].at)
  }

  /** One answer of a walk: when it was served, and the orders it covered. */
  datatype Fetched = Fetched(at: nat, low: nat, before: nat, ids: seq<EntryId>)

  /** Follows olderCursor until there is none or no request is left. */
  function Walk(states: seq<World>, s: SessionId, cursor: Option<TimelineCursor>, requests: seq<Request>):
    (seq<Fetched>, Option<TimelineCursor>)
    decreases |requests|
  {
    if cursor.None? || requests == [] || requests[0].at >= |states| then ([], cursor)
    else
      var page := TimelinePage(states[requests[0].at].db, s, cursor.value, requests[0].limit);
      if page.None? then ([], cursor)
      else
        var low := if page.value.older.Some? then page.value.older.value.before else 0;
        var (rest, last) := Walk(states, s, page.value.older, requests[1..]);
        ([Fetched(requests[0].at, low, cursor.value.before, page.value.ids)] + rest, last)
  }

  /** The answers chain downwards from `before` to `low`, each with all it covered that was finalized then. */
  ghost predicate Chains(states: seq<World>, s: SessionId, trace: seq<Fetched>, before: nat, low: nat)
    decreases |trace|
  {
    if trace == [] then low == before
    else
      && trace[0].before == before && trace[0].low <= before && trace[0].at < |states|
      && trace[0].ids == FinalizedBetween(states[trace[0].at].db.entries, s, trace[0].low, before)
      && Chains(states, s, trace[1..], trace[0].low, low)
  }

  /** The orders left below a cursor; none is left when there is no cursor. */
  function Left(cursor: Option<TimelineCursor>): nat {
    if cursor.Some? then cursor.value.before else 0
  }

  lemma TraceIsDense(states: seq<World>, k: nat)
    requires Traced(states) && k < |states|
    ensures Dense(states[k].db.entries)
  {
    TracedKeeps(states, k);
    hide Traced, Step, Reopens, RunsOk, SettlementsOk, LogOk, BlobsOk, Dense;
  }

  /** Each fetch covers a stretch of orders just below the one before it, completely. */
  lemma {:induction false} WalkChains(states: seq<World>, s: SessionId, cursor: TimelineCursor,
                                      requests: seq<Request>)
    requires Traced(states) && Served(states, requests, cursor.epoch) && cursor.session == s
    ensures var (trace, last) := Walk(states, s, Some(cursor), requests);
            && Chains(states, s, trace, cursor.before, Left(last))
            && (last.Some? ==> last.value.epoch == cursor.epoch && last.value.session == s)
    decreases |requests|
  {
    hide Traced, TimelinePage, Dense, FinalizedBetween;
    if requests != [] {
      var db := states[requests[0].at].db;
      TraceIsDense(states, requests[0].at);
      var low := PageCovers(db, s, cursor, requests[0].limit);
      var page := TimelinePage(db, s, cursor, requests[0].limit).value;
      if page.older.Some? {
        WalkChains(states, s, page.older.value, requests[1..]);
      }
    }
  }

  // ---------------------------------------------------------------- what a walk returns

  /** The rows of a walk, oldest first. */
  function Rows(trace: seq<Fetched>): seq<EntryId> {
    if trace == [] then [] else Rows(trace[1..]) + trace[0].ids
  }

  /** The fetch of a walk that covers an order. */
  ghost predicate CoveredBy(trace: seq<Fetched>, m: nat, order: nat) {
    m < |trace| && trace[m].low <= order < trace[m].before
  }

  lemma {:induction false} WalkCovers(states: seq<World>, s: SessionId, trace: seq<Fetched>, before: nat, low: nat, order: nat)
    returns (m: nat)
    requires Chains(states, s, trace, before, low) && low <= order < before
    ensures CoveredBy(trace, m, order)
    ensures forall l: nat :: CoveredBy(trace, l, order) ==> l == m
    decreases |trace|
  {
    if trace[0].low <= order {
      m := 0;
      ChainsAreBelow(states, s, trace[1..], trace[0].low, low);
      forall l | 1 <= l < |trace|
        ensures trace[l].before <= trace[0].low
      {
        assert trace[l] == trace[1..][l - 1];
      }
    } else {
      var rest := WalkCovers(states, s, trace[1..], trace[0].low, low, order);
      m := rest + 1;
      forall l: nat | CoveredBy(trace, l, order)
        ensures l == m
      {
        assert l > 0;
        assert CoveredBy(trace[1..], l - 1, order);
      }
    }
  }

  lemma {:induction false} ChainsAreBelow(states: seq<World>, s: SessionId, trace: seq<Fetched>, before: nat, low: nat)
    requires Chains(states, s, trace, before, low)
    ensures low <= before && forall l :: 0 <= l < |trace| ==> trace[l].before <= before
    ensures forall l :: 0 <= l < |trace| ==>
              trace[l].at < |states|
              && trace[l].ids == FinalizedBetween(states[trace[l].at].db.entries, s, trace[l].low, trace[l].before)
    decreases |trace|
  {
    if trace != [] {
      ChainsAreBelow(states, s, trace[1..], trace[0].low, low);
    }
  }

  lemma {:induction false} RowsOfTrace(trace: seq<Fetched>, i: EntryId)
    ensures i in Rows(trace) <==> exists m :: 0 <= m < |trace| && i in trace[m].ids
    decreases |trace|
  {
    if trace != [] {
      RowsOfTrace(trace[1..], i);
      assert forall m :: 1 <= m < |trace| ==> trace[m] == trace[1..][m - 1];
    }
  }

  /** Rows keep their Session and order, so a later table extends an earlier one in them. */
  ghost predicate SamePlaces(a: seq<Entry>, b: seq<Entry>) {
    |a| <= |b| && forall i :: 0 <= i < |a| ==> b[i].session == a[i].session && b[i].order == a[i].order
  }

  lemma {:induction false} PlacesStay(states: seq<World>, i: nat, n: nat)
    requires Traced(states) && i <= n < |states|
    ensures SamePlaces(states[i].db.entries, states[n].db.entries)
    ensures forall k :: 0 <= k < |states[i].db.entries| && states[i].db.entries[k].finalized
              ==> states[n].db.entries[k] == states[i].db.entries[k]
    decreases n - i
  {
    if i < n {
      PlacesStay(states, i, n - 1);
      TracedKeeps(states, n);
      hide Traced, Inv, LogStep, ReadStep, RunStep, TimelineStep, ReceiptStep;
    }
  }

  lemma WalkReturnsWhatWasFinalizedAlongTrace(states: seq<World>, s: SessionId, cursor: TimelineCursor,
                                    requests: seq<Request>, p: nat, i: EntryId) returns (m: nat)
    requires Traced(states) && Served(states, requests, cursor.epoch) && cursor.session == s
    requires p < |states| && forall l :: 0 <= l < |requests| ==> p <= requests[l].at
    requires Walk(states, s, Some(cursor), requests).1.None?
    requires i < |states[p].db.entries| && states[p].db.entries[i].session == s && states[p].db.entries[i].order < cursor.before
    ensures var trace := Walk(states, s, Some(cursor), requests).0;
            && CoveredBy(trace, m, states[p].db.entries[i].order)
            && p <= trace[m].at < |states| && i < |states[trace[m].at].db.entries|
            && (i in Rows(trace) <==> states[trace[m].at].db.entries[i].finalized)
  {
    var trace := Walk(states, s, Some(cursor), requests).0;
    var order := states[p].db.entries[i].order;
    WalkChains(states, s, cursor, requests);
    m := WalkCovers(states, s, trace, cursor.before, 0, order);
    ChainsAreBelow(states, s, trace, cursor.before, 0);
    WalkIsServedAt(states, s, Some(cursor), requests, p);
    PlacesAlong(states, trace, p);
    RowsOfTrace(trace, i);
    hide Walk, History, Chains, Served, Rows, FinalizedBetween;
    forall l | 0 <= l < |trace|
      ensures i in trace[l].ids <==> CoveredBy(trace, l, order) && states[trace[l].at].db.entries[i].finalized
    {
      FinalizedRows(states[trace[l].at].db.entries, s, trace[l].low, trace[l].before);
    }
  }

  lemma PlacesAlong(states: seq<World>, trace: seq<Fetched>, p: nat)
    requires Traced(states) && p < |states| && forall l :: 0 <= l < |trace| ==> p <= trace[l].at < |states|
    ensures forall l :: 0 <= l < |trace| ==> SamePlaces(states[p].db.entries, states[trace[l].at].db.entries)
  {
    forall l | 0 <= l < |trace|
      ensures SamePlaces(states[p].db.entries, states[trace[l].at].db.entries)
    {
      PlacesStay(states, p, trace[l].at);
    }
  }

  lemma {:induction false} WalkIsServedAt(states: seq<World>, s: SessionId, cursor: Option<TimelineCursor>,
                                          requests: seq<Request>, p: nat)
    requires forall l :: 0 <= l < |requests| ==> p <= requests[l].at
    ensures forall l :: 0 <= l < |Walk(states, s, cursor, requests).0|
              ==> p <= Walk(states, s, cursor, requests).0[l].at < |states|
    decreases |requests|
  {
    if cursor.Some? && requests != [] && requests[0].at < |states| {
      var page := TimelinePage(states[requests[0].at].db, s, cursor.value, requests[0].limit);
      if page.Some? {
        WalkIsServedAt(states, s, page.value.older, requests[1..], p);
      }
    }
  }

  // ---------------------------------------------------------------- completeness

  /** No row below `before` that is open at moment p is finalized when a request is served. */
  ghost predicate NothingFinalizesBelow(states: seq<World>, s: SessionId, p: nat, before: nat, requests: seq<Request>)
    requires p < |states|
  {
    forall m, i ::
      0 <= m < |requests| && requests[m].at < |states|
      && 0 <= i < |states[p].db.entries| && i < |states[requests[m].at].db.entries|
      && states[p].db.entries[i].session == s && states[p].db.entries[i].order < before
      && states[requests[m].at].db.entries[i].finalized
      ==> states[p].db.entries[i].finalized
  }

  /** Two tables have the same rows of a Session below an order, finalized alike. */
  ghost predicate SameBelow(a: seq<Entry>, b: seq<Entry>, s: SessionId, before: nat) {
    && SamePlaces(a, b)
    && (forall i :: 0 <= i < |a| && a[i].session == s && a[i].order < before ==> a[i].finalized == b[i].finalized)
    && (forall i :: |a| <= i < |b| && b[i].session == s ==> b[i].order >= before)
  }

  lemma {:induction false} SameFinalizedRows(a: seq<Entry>, b: seq<Entry>, s: SessionId, before: nat, low: nat, high: nat)
    requires SameBelow(a, b, s, before) && high <= before
    ensures FinalizedBetween(b, s, low, high) == FinalizedBetween(a, s, low, high)
    decreases |b|
  {
    var n := |b| - 1;
    if |a| < |b| {
      SameFinalizedRows(a, b[..n], s, before, low, high);
    } else if a != [] {
      SameFinalizedRows(a[..n], b[..n], s, before, low, high);
    }
  }

  lemma LaterRowsFollow(entries: seq<Entry>, x: EntryId, n: nat)
    requires Dense(entries) && x < n <= |entries|
    ensures forall i :: n <= i < |entries| && entries[i].session == entries[x].session ==> entries[i].order > entries[x].order
  {
    forall i | n <= i < |entries| && entries[i].session == entries[x].session
      ensures entries[i].order > entries[x].order
    {
      OrderIsPlace(entries, i);
      OrderIsPlace(entries, x);
      RowsBefore(entries, x + 1, i, entries[x].session);
      assert entries[..x + 1][..x] == entries[..x];
    }
  }

  /** Under the proviso each request sees the rows below the window as they were. */
  lemma RequestsSeeTheSame(states: seq<World>, s: SessionId, p: nat, x: EntryId, requests: seq<Request>, m: nat)
    requires Traced(states) && p < |states| && m < |requests| && p <= requests[m].at < |states|
    requires x < |states[p].db.entries| && states[p].db.entries[x].session == s
    requires NothingFinalizesBelow(states, s, p, states[p].db.entries[x].order, requests)
    ensures SameBelow(states[p].db.entries, states[requests[m].at].db.entries, s, states[p].db.entries[x].order)
  {
    var a, b := states[p].db.entries, states[requests[m].at].db.entries;
    PlacesStay(states, p, requests[m].at);
    TraceIsDense(states, requests[m].at);
    hide Traced, Dense;
    LaterRowsFollow(b, x, |a|);
    forall i | 0 <= i < |a| && a[i].session == s && a[i].order < a[x].order
      ensures a[i].finalized == b[i].finalized
    {
      assert b[i].finalized ==> a[i].finalized;
    }
  }

  /** The walk's rows, page by page, are the finalized rows the window left out, down to its cursor. */
  lemma {:induction false} WalkCollects(states: seq<World>, s: SessionId, p: nat, before: nat,
                                        cursor: TimelineCursor, requests: seq<Request>)
    requires Traced(states) && Served(states, requests, cursor.epoch) && cursor.session == s && p < |states|
    requires cursor.before <= before
    requires forall m :: 0 <= m < |requests|
               ==> SameBelow(states[p].db.entries, states[requests[m].at].db.entries, s, before)
    ensures var rows, (trace, last) := states[p].db.entries, Walk(states, s, Some(cursor), requests);
            && Rows(trace) == FinalizedBetween(rows, s, Left(last), cursor.before)
            && Left(last) <= cursor.before
            && (|requests| > |FinalizedBetween(rows, s, 0, cursor.before)| ==> last.None?)
    decreases |requests|
  {
    hide Traced, TimelinePage, FinalizedBetween, SameBelow, Rows;
    var rows := states[p].db.entries;
    if requests == [] {
      EmptyWalk(states, s, cursor, rows);
    } else {
      WalkCollectsPage(states, s, p, before, cursor, requests);
      var page := TimelinePage(states[requests[0].at].db, s, cursor, requests[0].limit).value;
      WalkUnfolds(states, s, cursor, requests);
      if page.older.Some? {
        WalkCollects(states, s, p, before, page.older.value, requests[1..]);
      } else {
        EndedWalk(states, s, requests[1..], rows);
      }
      hide Walk, Served;
      TraceSplits(states, p, s, Left(Walk(states, s, page.older, requests[1..]).1), Left(page.older), cursor.before);
    }
  }

  lemma EmptyWalk(states: seq<World>, s: SessionId, cursor: TimelineCursor, rows: seq<Entry>)
    ensures Walk(states, s, Some(cursor), []) == ([], Some(cursor)) && Rows([]) == []
    ensures FinalizedBetween(rows, s, cursor.before, cursor.before) == []
  {
    NoneBeyond(rows, s, cursor.before, cursor.before);
  }

  lemma EndedWalk(states: seq<World>, s: SessionId, requests: seq<Request>, rows: seq<Entry>)
    ensures Walk(states, s, None, requests) == ([], None) && Rows([]) == []
    ensures FinalizedBetween(rows, s, 0, 0) == []
  {
    NoneBeyond(rows, s, 0, 0);
  }

  lemma TraceSplits(states: seq<World>, p: nat, s: SessionId, low: nat, mid: nat, high: nat)
    requires Traced(states) && p < |states| && low <= mid <= high
    ensures FinalizedBetween(states[p].db.entries, s, low, high)
         == FinalizedBetween(states[p].db.entries, s, low, mid) + FinalizedBetween(states[p].db.entries, s, mid, high)
  {
    TraceIsDense(states, p);
    hide Traced, Dense;
    FinalizedSplits(states[p].db.entries, s, low, mid, high);
  }

  /** A walk is its first page followed by the walk from that page's cursor. */
  lemma WalkUnfolds(states: seq<World>, s: SessionId, cursor: TimelineCursor, requests: seq<Request>)
    requires requests != [] && requests[0].at < |states|
    requires TimelinePage(states[requests[0].at].db, s, cursor, requests[0].limit).Some?
    ensures var page := TimelinePage(states[requests[0].at].db, s, cursor, requests[0].limit).value;
            var (rest, last) := Walk(states, s, page.older, requests[1..]);
            var (trace, end) := Walk(states, s, Some(cursor), requests);
            Rows(trace) == Rows(rest) + page.ids && end == last
  {
    var (trace, end) := Walk(states, s, Some(cursor), requests);
    hide TimelinePage;
    var page := TimelinePage(states[requests[0].at].db, s, cursor, requests[0].limit).value;
    assert trace[1..] == Walk(states, s, page.older, requests[1..]).0;
  }

  /** The first page of a walk, in terms of the rows at moment p. */
  lemma WalkCollectsPage(states: seq<World>, s: SessionId, p: nat, before: nat,
                         cursor: TimelineCursor, requests: seq<Request>)
    requires Traced(states) && Served(states, requests, cursor.epoch) && cursor.session == s && p < |states|
    requires requests != [] && cursor.before <= before
    requires SameBelow(states[p].db.entries, states[requests[0].at].db.entries, s, before)
    ensures var rows := states[p].db.entries;
            var answer := TimelinePage(states[requests[0].at].db, s, cursor, requests[0].limit);
            && answer.Some?
            && (answer.value.older.Some? ==>
                  && answer.value.older.value.epoch == cursor.epoch && answer.value.older.value.session == s
                  && answer.value.older.value.before < cursor.before && answer.value.ids != [])
            && answer.value.ids == FinalizedBetween(rows, s, Left(answer.value.older), cursor.before)
            && FinalizedBetween(rows, s, 0, cursor.before)
               == FinalizedBetween(rows, s, 0, Left(answer.value.older)) + answer.value.ids
  {
    var rows := states[p].db.entries;
    TraceIsDense(states, p);
    TraceIsDense(states, requests[0].at);
    hide Traced, Dense;
    var db := states[requests[0].at].db;
    var low := PageCovers(db, s, cursor, requests[0].limit);
    SameFinalizedRows(rows, db.entries, s, before, low, cursor.before);
    hide TimelinePage, SameBelow;
    FinalizedSplits(rows, s, 0, low, cursor.before);
  }

  /** A row of the Session is in the window or below it. */
  lemma WindowHoldsTheRest(db: Db, s: SessionId, i: EntryId)
    requires Dense(db.entries) && i < |db.entries| && db.entries[i].session == s
    ensures var ids := TimelineWindow(db, s).ids;
            i in ids || (ids != [] && ids[0] < |db.entries| && db.entries[ids[0]].session == s
                         && db.entries[i].order < db.entries[ids[0]].order)
  {
    var all := RowIds(db.entries, s);
    RowIdsAreRows(db.entries, s);
    RowIdsOrders(db.entries, s);
    var k :| 0 <= k < |all| && all[k] == i;
    assert OrderedAs(db.entries, s, all[k], k);
    hide Dense, RowIds, FinalizedBetween;
    if |all| > WINDOW_SIZE {
      var first := |all| - WINDOW_SIZE;
      assert OrderedAs(db.entries, s, all[first], first);
      if k >= first {
        assert all[first..][k - first] == i;
      }
    }
  }

  /** Rows listed by strictly ascending order, so none twice. */
  predicate Ascend(entries: seq<Entry>, ids: seq<EntryId>) {
    && (forall k :: 0 <= k < |ids| ==> ids[k] < |entries|)
    && forall j, k :: 0 <= j < k < |ids| ==> entries[ids[j]].order < entries[ids[k]].order
  }

  /** What lies below a window, followed by the window, ascends. */
  lemma BelowThenWindowAscends(db: Db, s: SessionId, low: nat, cursor: TimelineCursor)
    requires Dense(db.entries) && TimelineWindow(db, s).older == Some(cursor)
    ensures Ascend(db.entries, FinalizedBetween(db.entries, s, low, cursor.before) + TimelineWindow(db, s).ids)
  {
    var below, ids := FinalizedBetween(db.entries, s, low, cursor.before), WindowIds(db.entries, s);
    WindowIdsAreRows(db.entries, s);
    FinalizedRows(db.entries, s, low, cursor.before);
    FinalizedAscend(db.entries, s, low, cursor.before);
    WindowIdsAscend(db.entries, s);
    assert cursor.before == db.entries[ids[0]].order;
    hide FinalizedBetween, WindowIds, Dense;
    assert forall k :: 0 <= k < |ids| ==> cursor.before <= db.entries[ids[k]].order;
    assert forall k :: 0 <= k < |below| ==> db.entries[below[k]].order < cursor.before;
  }

  lemma PagesAreCompleteAlongTrace(states: seq<World>, s: SessionId, p: nat, cursor: TimelineCursor,
                         requests: seq<Request>)
    requires Traced(states) && p < |states| && Served(states, requests, states[p].db.epoch)
    requires forall m :: 0 <= m < |requests| ==> p <= requests[m].at
    requires TimelineWindow(states[p].db, s).older == Some(cursor)
    requires NothingFinalizesBelow(states, s, p, cursor.before, requests)
    ensures var rows, (trace, last) := states[p].db.entries, Walk(states, s, Some(cursor), requests);
            && Rows(trace) == FinalizedBetween(rows, s, Left(last), cursor.before)
            && Ascend(rows, Rows(trace) + TimelineWindow(states[p].db, s).ids)
            && (|requests| > |FinalizedBetween(rows, s, 0, cursor.before)| ==> last.None?)
            && (last.None? ==> forall i: EntryId :: i < |rows| && rows[i].session == s && rows[i].finalized
                                 ==> i in Rows(trace) || i in TimelineWindow(states[p].db, s).ids)
  {
    var rows := states[p].db.entries;
    var ids := WindowIds(rows, s);
    WindowIdsAreRows(rows, s);
    assert cursor == TimelineCursor(states[p].db.epoch, s, rows[ids[0]].order);
    var (trace, last) := Walk(states, s, Some(cursor), requests);
    assert TimelineWindow(states[p].db, s).ids == ids;
    TraceIsDense(states, p);
    hide Walk, TimelinePage, WindowIds, FinalizedBetween, Rows;
    forall m | 0 <= m < |requests|
      ensures SameBelow(rows, states[requests[m].at].db.entries, s, cursor.before)
    {
      RequestsSeeTheSame(states, s, p, ids[0], requests, m);
    }
    WalkCollects(states, s, p, cursor.before, cursor, requests);
    BelowThenWindowAscends(states[p].db, s, Left(last), cursor);
    hide Traced, Served, Dense, SameBelow, NothingFinalizesBelow, TimelineWindow, Ascend;
    forall i: EntryId | i < |rows| && rows[i].session == s && rows[i].finalized && last.None?
      ensures i in Rows(trace) || i in ids
    {
      WindowHoldsTheRest(states[p].db, s, i);
      FinalizedRows(rows, s, 0, cursor.before);
    }
  }

  lemma LastWindowIsWholeAlongTrace(states: seq<World>, s: SessionId, p: nat, i: EntryId)
    requires Traced(states) && p < |states| && TimelineWindow(states[p].db, s).older.None?
    requires i < |states[p].db.entries| && states[p].db.entries[i].session == s && states[p].db.entries[i].finalized
    ensures i in TimelineWindow(states[p].db, s).ids
  {
    var rows := states[p].db.entries;
    TraceIsDense(states, p);
    hide Traced, Dense;
    WindowHoldsTheRest(states[p].db, s, i);
    WindowIdsAreRows(rows, s);
    if TimelineWindow(states[p].db, s).ids != [] {
      FinalizedRows(rows, s, 0, rows[WindowIds(rows, s)[0]].order);
    }
  }

  // ---------------------------------------------------------------- over histories

  /**
   Whatever is written or finalized while a walk goes on, a row below the window is returned exactly
   if it was finalized when the one request that covers its order was served.
   */
  lemma WalkReturnsWhatWasFinalized(states: seq<World>, events: seq<Event>, s: SessionId, cursor: TimelineCursor,
                                    requests: seq<Request>, p: nat, i: EntryId) returns (m: nat)
    requires History(states, events) && Served(states, requests, cursor.epoch) && cursor.session == s
    requires p < |states| && forall l :: 0 <= l < |requests| ==> p <= requests[l].at
    requires Walk(states, s, Some(cursor), requests).1.None?
    requires i < |states[p].db.entries| && states[p].db.entries[i].session == s && states[p].db.entries[i].order < cursor.before
    ensures var trace := Walk(states, s, Some(cursor), requests).0;
            && CoveredBy(trace, m, states[p].db.entries[i].order)
            && p <= trace[m].at < |states| && i < |states[trace[m].at].db.entries|
            && (i in Rows(trace) <==> states[trace[m].at].db.entries[i].finalized)
  {
    HistoryIsTraced(states, events);
    m := WalkReturnsWhatWasFinalizedAlongTrace(states, s, cursor, requests, p, i);
  }

  /**
   Pages are complete. Follow olderCursor from a Session's window with any limits, while rows are
   appended, provided no open row below the window is finalized meanwhile: each stretch of the walk is
   exactly the finalized rows it covers, and with the window after it ascends strictly; it ends after at most one request more than there
   are rows; and once it has ended every finalized row is in a page or in the window.
   */
  lemma PagesAreComplete(states: seq<World>, events: seq<Event>, s: SessionId, p: nat, cursor: TimelineCursor,
                         requests: seq<Request>)
    requires History(states, events) && p < |states| && Served(states, requests, states[p].db.epoch)
    requires forall m :: 0 <= m < |requests| ==> p <= requests[m].at
    requires TimelineWindow(states[p].db, s).older == Some(cursor)
    requires NothingFinalizesBelow(states, s, p, cursor.before, requests)
    ensures var rows, (trace, last) := states[p].db.entries, Walk(states, s, Some(cursor), requests);
            && Rows(trace) == FinalizedBetween(rows, s, Left(last), cursor.before)
            && Ascend(rows, Rows(trace) + TimelineWindow(states[p].db, s).ids)
            && (|requests| > |FinalizedBetween(rows, s, 0, cursor.before)| ==> last.None?)
            && (last.None? ==> forall i: EntryId :: i < |rows| && rows[i].session == s && rows[i].finalized
                                 ==> i in Rows(trace) || i in TimelineWindow(states[p].db, s).ids)
  {
    HistoryIsTraced(states, events);
    PagesAreCompleteAlongTrace(states, s, p, cursor, requests);
  }

  /** A window without a cursor leaves out no finalized row. */
  lemma LastWindowIsWhole(states: seq<World>, events: seq<Event>, s: SessionId, p: nat, i: EntryId)
    requires History(states, events) && p < |states| && TimelineWindow(states[p].db, s).older.None?
    requires i < |states[p].db.entries| && states[p].db.entries[i].session == s && states[p].db.entries[i].finalized
    ensures i in TimelineWindow(states[p].db, s).ids
  {
    HistoryIsTraced(states, events);
    LastWindowIsWholeAlongTrace(states, s, p, i);
  }
}
