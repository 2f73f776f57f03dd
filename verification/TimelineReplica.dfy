/**
 The Client's copy of one Session's timeline, and why it equals the Host's under any loss, duplication
 or reordering of timeline changes.
 */
module TimelineReplica {
  import opened Options
  import opened AuthorityTables
  import opened AuthorityOperations
  import opened AuthorityInvariants
  import opened AuthorityHistory
  import opened Pagination

  datatype Fact = Fact(id: EntryId, row: Entry)

  /** What the Client keeps of an open Session: its revision, the revision it renders, and its rows. */
  datatype Replica = Replica(revision: nat, presented: nat, facts: seq<Fact>)

  // ---------------------------------------------------------------- sorting by order

  /** A stable insertion: equal orders keep their places. */
  function InsertFact(facts: seq<Fact>, fact: Fact): seq<Fact> {
    if facts == [] || facts[|facts| - 1].row.order <= fact.row.order then facts + [fact]
    else InsertFact(facts[..|facts| - 1], fact) + [facts[|facts| - 1]]
  }

  function SortFacts(facts: seq<Fact>): seq<Fact> {
    if facts == [] then [] else InsertFact(SortFacts(facts[..|facts| - 1]), facts[|facts| - 1])
  }

  ghost predicate Ascending(facts: seq<Fact>) {
    forall i, j :: 0 <= i < j < |facts| ==> facts[i].row.order < facts[j].row.order
  }

  lemma {:induction false} SortedFactsStay(facts: seq<Fact>)
    requires Ascending(facts)
    ensures SortFacts(facts) == facts
  {
    if facts != [] {
      SortedFactsStay(facts[..|facts| - 1]);
    }
  }

  lemma {:induction false} InsertKeepsMembers(facts: seq<Fact>, fact: Fact, any: Fact)
    ensures any in InsertFact(facts, fact) <==> any in facts || any == fact
  {
    if facts != [] && facts[|facts| - 1].row.order > fact.row.order {
      InsertKeepsMembers(facts[..|facts| - 1], fact, any);
      assert facts == facts[..|facts| - 1] + [facts[|facts| - 1]];
    }
  }

  lemma {:induction false} InsertKeepsAscending(facts: seq<Fact>, fact: Fact)
    requires Ascending(facts) && forall k :: 0 <= k < |facts| ==> facts[k].row.order != fact.row.order
    ensures Ascending(InsertFact(facts, fact))
  {
    if facts != [] && facts[|facts| - 1].row.order > fact.row.order {
      var front, last := facts[..|facts| - 1], facts[|facts| - 1];
      InsertKeepsAscending(front, fact);
      var inserted := InsertFact(front, fact);
      forall k | 0 <= k < |inserted|
        ensures inserted[k].row.order < last.row.order
      {
        InsertKeepsMembers(front, fact, inserted[k]);
      }
    }
  }

  /** Sorting after a push keeps the facts, in ascending order. */
  lemma SortedPush(facts: seq<Fact>, fact: Fact)
    requires Ascending(facts) && forall k :: 0 <= k < |facts| ==> facts[k].row.order != fact.row.order
    ensures Ascending(SortFacts(facts + [fact]))
    ensures forall any :: any in SortFacts(facts + [fact]) <==> any in facts || any == fact
  {
    SortedFactsStay(facts);
    assert (facts + [fact])[..|facts|] == facts;
    InsertKeepsAscending(facts, fact);
    forall any: Fact
      ensures any in InsertFact(facts, fact) <==> any in facts || any == fact
    {
      InsertKeepsMembers(facts, fact, any);
    }
  }

  // ---------------------------------------------------------------- the watch handler

  function IndexOfFact(facts: seq<Fact>, id: EntryId): (k: nat)
    ensures k <= |facts| && (k < |facts| ==> facts[k].id == id)
    ensures forall j :: 0 <= j < k ==> facts[j].id != id
  {
    if facts == [] then 0
    else
      var k := IndexOfFact(facts[..|facts| - 1], id);
      if k < |facts| - 1 || facts[k].id == id then k else |facts|
  }

  /** What the handler of a timeline change makes of the copy. */
  function Receive(r: Replica, change: TimelineChange): Replica {
    if change.baseRevision != r.revision || change.revision <= r.revision then r
    else
      var fact := Fact(change.id, change.entry);
      var k := IndexOfFact(r.facts, change.id);
      if k == |r.facts| then Replica(change.revision, change.revision, SortFacts(r.facts + [fact]))
      else if !r.facts[k].row.finalized && change.entry.revision > r.facts[k].row.revision then
        Replica(change.revision, change.revision, SortFacts(r.facts[k := fact]))
      else Replica(change.revision, r.presented, SortFacts(r.facts))
  }

  class SessionView {
    var timelineRevision: nat
    var presentedRevision: nat
    var entries: seq<Fact>

    function State(): Replica reads this { Replica(timelineRevision, presentedRevision, entries) }

    /** openSession, once the projection has arrived. */
    constructor (projection: Replica)
      ensures State() == projection
    {
      timelineRevision, presentedRevision, entries := projection.revision, projection.presented, projection.facts;
    }

    method OnTimelineChange(change: TimelineChange)
      modifies this
      ensures State() == Receive(old(State()), change)
    {
      hide SortFacts, IndexOfFact;
      if change.baseRevision != timelineRevision || change.revision <= timelineRevision {
        return;
      }
      var next := entries;
      var index := 0;
      while index < |next| && next[index].id != change.id
        invariant index <= |next| && forall j :: 0 <= j < index ==> next[j].id != change.id
      {
        index := index + 1;
      }
      var merged := true;
      if index == |next| {
        next := next + [Fact(change.id, change.entry)];
      } else {
        var current := next[index].row;
        merged := !current.finalized && change.entry.revision > current.revision;
        if merged {
          next := next[index := Fact(change.id, change.entry)];
        }
      }
      entries := SortFacts(next);
      timelineRevision := change.revision;
      if merged {
        presentedRevision := change.revision;
      }
    }
  }

  // ---------------------------------------------------------------- what the copy stands for

  /** Every row held is the Host's, in order, and the rendered revision is the held one. */
  ghost predicate Faithful(r: Replica, view: TimelineView) {
    && r.revision == view.revision && r.presented == r.revision && Ascending(r.facts)
    && forall k :: 0 <= k < |r.facts| ==> r.facts[k].id in view.rows && view.rows[r.facts[k].id] == r.facts[k].row
  }

  /** Every row that `view` adds to or changes in `base` is held. */
  ghost predicate HoldsChanges(r: Replica, base: TimelineView, view: TimelineView) {
    forall i: EntryId :: i in view.rows && (i !in base.rows || base.rows[i] != view.rows[i])
      ==> Fact(i, view.rows[i]) in r.facts
  }

  ghost predicate OrdersDiffer(view: TimelineView) {
    forall i, j :: i in view.rows && j in view.rows && i != j ==> view.rows[i].order != view.rows[j].order
  }

  lemma OtherIdDiffers(r: Replica, view: TimelineView, j: nat, k: nat)
    requires Faithful(r, view) && j < |r.facts| && k < |r.facts| && j != k
    ensures r.facts[j].id != r.facts[k].id
  {}

  /** A change of the revision the copy is at, applied to it, follows the Host by that one revision. */
  lemma ReceiveFollows(r: Replica, base: TimelineView, a: TimelineView, b: TimelineView, change: TimelineChange)
    requires Faithful(r, a) && HoldsChanges(r, base, a) && OrdersDiffer(b) && Touched(a, b, change.id)
    requires change.baseRevision == a.revision && change.revision == b.revision && change.entry == b.rows[change.id]
    ensures Faithful(Receive(r, change), b) && HoldsChanges(Receive(r, change), base, b)
  {
    var fact := Fact(change.id, change.entry);
    var k := IndexOfFact(r.facts, change.id);
    if k == |r.facts| {
      PushFollows(r, base, a, b, fact);
    } else {
      ReplaceFollows(r, base, a, b, fact, k);
    }
  }

  /** The rows of the copy other than the touched one are the Host's after the touch. */
  lemma OthersStay(r: Replica, a: TimelineView, b: TimelineView, id: EntryId, k: nat)
    requires Faithful(r, a) && Touched(a, b, id) && k < |r.facts| && r.facts[k].id != id
    ensures r.facts[k].id in b.rows && b.rows[r.facts[k].id] == r.facts[k].row
  {}

  lemma PushFollows(r: Replica, base: TimelineView, a: TimelineView, b: TimelineView, fact: Fact)
    requires Faithful(r, a) && HoldsChanges(r, base, a) && OrdersDiffer(b) && Touched(a, b, fact.id)
    requires fact.row == b.rows[fact.id] && forall j :: 0 <= j < |r.facts| ==> r.facts[j].id != fact.id
    ensures var next := Replica(b.revision, b.revision, SortFacts(r.facts + [fact]));
            Faithful(next, b) && HoldsChanges(next, base, b)
  {
    forall k | 0 <= k < |r.facts|
      ensures r.facts[k].id in b.rows && b.rows[r.facts[k].id] == r.facts[k].row
    {
      OthersStay(r, a, b, fact.id, k);
    }
    var sorted := SortFacts(r.facts + [fact]);
    SortedPush(r.facts, fact);
    hide SortFacts;
    PushedHoldsChanges(r, base, a, b, fact, sorted);
    hide HoldsChanges, Touched;
    forall k | 0 <= k < |sorted|
      ensures sorted[k].id in b.rows && b.rows[sorted[k].id] == sorted[k].row
    {
      assert sorted[k] in sorted;
    }
  }

  lemma PushedHoldsChanges(r: Replica, base: TimelineView, a: TimelineView, b: TimelineView, fact: Fact, next: seq<Fact>)
    requires HoldsChanges(r, base, a) && Touched(a, b, fact.id) && fact.row == b.rows[fact.id]
    requires fact in next && forall any :: any in r.facts && any.id != fact.id ==> any in next
    ensures HoldsChanges(Replica(b.revision, b.revision, next), base, b)
  {}

  lemma ReplaceFollows(r: Replica, base: TimelineView, a: TimelineView, b: TimelineView, fact: Fact, k: nat)
    requires Faithful(r, a) && HoldsChanges(r, base, a) && Touched(a, b, fact.id)
    requires fact.row == b.rows[fact.id] && k < |r.facts| && r.facts[k].id == fact.id
    ensures !r.facts[k].row.finalized && fact.row.revision > r.facts[k].row.revision
    ensures var next := Replica(b.revision, b.revision, SortFacts(r.facts[k := fact]));
            Faithful(next, b) && HoldsChanges(next, base, b)
  {
    ReplacedIsFaithful(r, a, b, fact, k);
    ReplacedHoldsFacts(r, fact, k);
    var next := r.facts[k := fact];
    SortedFactsStay(next);
    hide SortFacts, HoldsChanges, Faithful;
    PushedHoldsChanges(r, base, a, b, fact, next);
  }

  lemma ReplacedIsFaithful(r: Replica, a: TimelineView, b: TimelineView, fact: Fact, k: nat)
    requires Faithful(r, a) && Touched(a, b, fact.id)
    requires fact.row == b.rows[fact.id] && k < |r.facts| && r.facts[k].id == fact.id
    ensures Ascending(r.facts[k := fact]) && Faithful(Replica(b.revision, b.revision, r.facts[k := fact]), b)
    ensures !r.facts[k].row.finalized && fact.row.revision > r.facts[k].row.revision
  {
    var next := r.facts[k := fact];
    assert Ascending(next);
    forall j | 0 <= j < |next|
      ensures next[j].id in b.rows && b.rows[next[j].id] == next[j].row
    {
      if j != k {
        OtherIdDiffers(r, a, j, k);
        OthersStay(r, a, b, fact.id, j);
      }
    }
  }

  lemma ReplacedHoldsFacts(r: Replica, fact: Fact, k: nat)
    requires k < |r.facts| && r.facts[k].id == fact.id
    ensures fact in r.facts[k := fact]
    ensures forall any :: any in r.facts && any.id != fact.id ==> any in r.facts[k := fact]
  {
    var next := r.facts[k := fact];
    assert next[k] == fact;
    forall any | any in r.facts && any.id != fact.id
      ensures any in next
    {
      var j :| 0 <= j < |r.facts| && r.facts[j] == any;
      assert next[j] == any;
    }
  }

  // ---------------------------------------------------------------- the Host's views along a history

  ghost function ViewAt(states: seq<World>, k: nat, s: SessionId): TimelineView
    requires k < |states| && s in states[k].db.sessions
  {
    ViewOf(states[k].db, s)
  }

  /** Revisions ascend along a trace, and a revision names one view. */
  lemma {:induction false} RevisionNamesView(states: seq<World>, i: nat, n: nat, s: SessionId)
    requires Traced(states) && i <= n < |states| && s in states[i].db.sessions
    ensures s in states[n].db.sessions && ViewAt(states, i, s).revision <= ViewAt(states, n, s).revision
    ensures ViewAt(states, i, s).revision == ViewAt(states, n, s).revision ==> ViewAt(states, i, s) == ViewAt(states, n, s)
    decreases n - i
  {
    hide Traced, TimelineStep, ViewOf;
    if i < n {
      RevisionNamesView(states, i, n - 1, s);
      TraceMovesTimelines(states, n);
      OneMove(states[n - 1].db, states[n].db, s);
    }
  }

  lemma TraceMovesTimelines(states: seq<World>, n: nat)
    requires Traced(states) && 0 < n < |states|
    ensures TimelineStep(states[n - 1].db, states[n].db)
  {
    TracedKeeps(states, n);
    hide Traced, Inv, LogStep, ReadStep, TimelineStep, RunStep, EntryStep, ReceiptStep;
  }

  lemma OneMove(a: Db, b: Db, s: SessionId)
    requires TimelineStep(a, b) && s in a.sessions
    ensures s in b.sessions && ViewOf(a, s).revision <= ViewOf(b, s).revision
    ensures ViewOf(a, s).revision == ViewOf(b, s).revision ==> ViewOf(a, s) == ViewOf(b, s)
  {}

  lemma ViewOrdersDiffer(states: seq<World>, k: nat, s: SessionId)
    requires Traced(states) && k < |states| && s in states[k].db.sessions
    ensures OrdersDiffer(ViewAt(states, k, s))
  {
    TraceIsDense(states, k);
    hide Traced, Dense;
    OrdersOfDenseDiffer(states[k].db.entries);
  }

  lemma OrdersOfDenseDiffer(entries: seq<Entry>)
    requires Dense(entries)
    ensures forall i, j :: 0 <= i < j < |entries| && entries[i].session == entries[j].session
              ==> entries[i].order != entries[j].order
  {
    forall i, j | 0 <= i < j < |entries| && entries[i].session == entries[j].session
      ensures entries[i].order < entries[j].order
    {
      OrderIsPlace(entries, i);
      OrderIsPlace(entries, j);
      RowsBefore(entries, i + 1, j, entries[i].session);
      assert entries[..i + 1][..i] == entries[..i];
    }
  }

  /** A change that describes a step touches the Session's view at the row it names. */
  lemma DescribedStepTouches(a: Db, b: Db, change: TimelineChange)
    requires TimelineStep(a, b) && Describes(change, a, b)
    ensures Touched(ViewOf(a, change.session), ViewOf(b, change.session), change.id)
  {
    var s := change.session;
    var i: EntryId :| Touched(ViewOf(a, s), ViewOf(b, s), i);
    assert ViewOf(b, s).rows[change.id] == change.entry;
  }

  // ---------------------------------------------------------------- deliveries

  function Deliver(r: Replica, changes: seq<TimelineChange>): Replica {
    if changes == [] then r
    else Receive(Deliver(r, changes[..|changes| - 1]), changes[|changes| - 1])
  }

  /** openSession's projection: the Session's revision and its latest window of rows. */
  function Project(db: Db, s: SessionId): Replica
    requires s in db.sessions
  {
    var ids := WindowIds(db.entries, s);
    WindowIdsAreRows(db.entries, s);
    Replica(db.sessions[s].timelineRevision, db.sessions[s].timelineRevision,
            seq(|ids|, k requires 0 <= k < |ids| => Fact(ids[k], db.entries[ids[k]])))
  }

  lemma ProjectionIsFaithful(db: Db, s: SessionId)
    requires s in db.sessions && Dense(db.entries)
    ensures Faithful(Project(db, s), ViewOf(db, s))
  {
    WindowIdsAreRows(db.entries, s);
    WindowIdsAscend(db.entries, s);
  }

  /** A change some step of the history made to Session s: what its Host sends, and all it sends. */
  ghost predicate SentBy(states: seq<World>, s: SessionId, change: TimelineChange, k: nat) {
    k + 1 < |states| && change.session == s && Describes(change, states[k].db, states[k + 1].db)
  }

  ghost predicate SentBySome(states: seq<World>, s: SessionId, change: TimelineChange) {
    exists k: nat :: SentBy(states, s, change, k)
  }

  /** The copy equals the Host's timeline at moment j and holds all that changed since moment p. */
  ghost predicate Tracks(r: Replica, states: seq<World>, s: SessionId, p: nat, j: nat) {
    && p <= j < |states| && s in states[p].db.sessions && s in states[j].db.sessions
    && Faithful(r, ViewAt(states, j, s)) && HoldsChanges(r, ViewAt(states, p, s), ViewAt(states, j, s))
  }

  /** One delivery, of any change of the history at any time, keeps the copy on the Host's track. */
  lemma OneDelivery(r: Replica, states: seq<World>, s: SessionId, p: nat, j: nat,
                    change: TimelineChange) returns (next: nat)
    requires Traced(states) && Tracks(r, states, s, p, j) && SentBySome(states, s, change)
    ensures Tracks(Receive(r, change), states, s, p, next)
    ensures next >= j
  {
    next := j;
    hide Traced, Tracks, Receive, SentBy;
    if change.baseRevision == r.revision && change.revision > r.revision {
      var k: nat :| SentBy(states, s, change, k);
      TrackedRevision(r, states, s, p, j);
      SentFromHere(states, s, j, k, change);
      SentStepTouches(states, s, k, change);
      hide Touched;
      TracksFurther(r, states, s, p, j, k, change);
      next := k + 1;
    } else {
      StaleChangeIsDropped(r, change);
    }
  }

  lemma StaleChangeIsDropped(r: Replica, change: TimelineChange)
    requires !(change.baseRevision == r.revision && change.revision > r.revision)
    ensures Receive(r, change) == r
  {}

  lemma TrackedRevision(r: Replica, states: seq<World>, s: SessionId, p: nat, j: nat)
    requires Tracks(r, states, s, p, j)
    ensures p <= j < |states| && s in states[j].db.sessions && r.revision == ViewAt(states, j, s).revision
  {}

  /** A change based on the revision at j was made at or after j, while the Session looked as at j. */
  lemma SentFromHere(states: seq<World>, s: SessionId, j: nat, k: nat, change: TimelineChange)
    requires Traced(states) && j < |states| && s in states[j].db.sessions && SentBy(states, s, change, k)
    requires change.baseRevision == ViewAt(states, j, s).revision
    ensures j <= k && s in states[k].db.sessions && ViewAt(states, k, s) == ViewAt(states, j, s)
  {
    hide Traced;
    if j <= k {
      RevisionNamesView(states, j, k, s);
    } else {
      RevisionNamesView(states, k + 1, j, s);
    }
  }

  lemma SentStepTouches(states: seq<World>, s: SessionId, k: nat, change: TimelineChange)
    requires Traced(states) && SentBy(states, s, change, k)
    ensures k + 1 < |states| && s in states[k].db.sessions && s in states[k + 1].db.sessions
    ensures Touched(ViewAt(states, k, s), ViewAt(states, k + 1, s), change.id) && OrdersDiffer(ViewAt(states, k + 1, s))
    ensures change.baseRevision == ViewAt(states, k, s).revision && change.revision == ViewAt(states, k + 1, s).revision
    ensures change.id in ViewAt(states, k + 1, s).rows && change.entry == ViewAt(states, k + 1, s).rows[change.id]
  {
    hide Traced, OrdersDiffer, Touched, TimelineStep;
    TraceMovesTimelines(states, k + 1);
    ViewOrdersDiffer(states, k + 1, s);
    DescribedStepTouches(states[k].db, states[k + 1].db, change);
  }

  lemma TracksFurther(r: Replica, states: seq<World>, s: SessionId, p: nat, j: nat, k: nat,
                      change: TimelineChange)
    requires Tracks(r, states, s, p, j) && j <= k && k + 1 < |states|
    requires s in states[k].db.sessions && s in states[k + 1].db.sessions && ViewAt(states, k, s) == ViewAt(states, j, s)
    requires Touched(ViewAt(states, k, s), ViewAt(states, k + 1, s), change.id) && OrdersDiffer(ViewAt(states, k + 1, s))
    requires change.baseRevision == ViewAt(states, k, s).revision && change.revision == ViewAt(states, k + 1, s).revision
    requires change.entry == ViewAt(states, k + 1, s).rows[change.id]
    ensures Tracks(Receive(r, change), states, s, p, k + 1)
  {
    hide Faithful, HoldsChanges, Receive, OrdersDiffer, ViewOf, Touched;
    ReceiveFollows(r, ViewAt(states, p, s), ViewAt(states, k, s), ViewAt(states, k + 1, s), change);
  }

  lemma {:induction false} ReplicaTracksTrace(states: seq<World>, s: SessionId, p: nat, changes: seq<TimelineChange>)
    returns (j: nat)
    requires Traced(states) && p < |states| && s in states[p].db.sessions
    requires forall k :: 0 <= k < |changes| ==> SentBySome(states, s, changes[k])
    ensures Tracks(Deliver(Project(states[p].db, s), changes), states, s, p, j)
  {
    hide Traced, Tracks, SentBySome, Receive;
    if changes == [] {
      j := p;
      ProjectionTracks(states, s, p);
    } else {
      var front := changes[..|changes| - 1];
      j := ReplicaTracksTrace(states, s, p, front);
      j := OneDelivery(Deliver(Project(states[p].db, s), front), states, s, p, j, changes[|changes| - 1]);
    }
  }

  /** The changes of every step that moved the Session between two moments, in order. */
  ghost predicate AllChanges(states: seq<World>, s: SessionId, p: nat, n: nat, changes: seq<TimelineChange>)
    requires p <= n < |states| && forall k :: p <= k <= n ==> s in states[k].db.sessions
    decreases n - p
  {
    if p == n then changes == []
    else if states[n - 1].db.sessions[s].timelineRevision == states[n].db.sessions[s].timelineRevision
    then AllChanges(states, s, p, n - 1, changes)
    else changes != [] && SentBy(states, s, changes[|changes| - 1], n - 1)
         && AllChanges(states, s, p, n - 1, changes[..|changes| - 1])
  }

  /** A step that moves the Session's timeline has a change that describes it. */
  lemma MovingStepHasChange(a: Db, b: Db, s: SessionId)
    requires TimelineStep(a, b) && s in a.sessions && a.sessions[s].timelineRevision != b.sessions[s].timelineRevision
    ensures exists c: TimelineChange :: c.session == s && Describes(c, a, b)
  {
    var i: EntryId :| Touched(ViewOf(a, s), ViewOf(b, s), i);
    var c := TimelineChange(s, a.sessions[s].timelineRevision, b.sessions[s].timelineRevision, i, b.entries[i]);
    if i < |a.entries| {
      if i in ViewOf(a, s).rows {
        assert a.entries[i].revision < b.entries[i].revision;
      }
    }
    assert Describes(c, a, b);
  }

  lemma {:induction false} LosslessAlongTrace(states: seq<World>, s: SessionId, p: nat, n: nat, changes: seq<TimelineChange>)
    requires Traced(states) && p <= n < |states|
    requires forall k :: p <= k <= n ==> s in states[k].db.sessions
    requires AllChanges(states, s, p, n, changes)
    ensures Tracks(Deliver(Project(states[p].db, s), changes), states, s, p, n)
    decreases n - p
  {
    hide Traced, Tracks, Touched, OrdersDiffer, Receive, ViewOf, SentBy;
    if p == n {
      ProjectionTracks(states, s, p);
    } else if states[n - 1].db.sessions[s].timelineRevision == states[n].db.sessions[s].timelineRevision {
      LosslessAlongTrace(states, s, p, n - 1, changes);
      TracksIdly(Deliver(Project(states[p].db, s), changes), states, s, p, n);
    } else {
      var front, last := changes[..|changes| - 1], changes[|changes| - 1];
      LosslessAlongTrace(states, s, p, n - 1, front);
      SentStepTouches(states, s, n - 1, last);
      TracksFurther(Deliver(Project(states[p].db, s), front), states, s, p, n - 1, n - 1, last);
    }
  }

  lemma ProjectionTracks(states: seq<World>, s: SessionId, p: nat)
    requires Traced(states) && p < |states| && s in states[p].db.sessions
    ensures Tracks(Project(states[p].db, s), states, s, p, p)
  {
    TraceIsDense(states, p);
    hide Traced, Dense;
    ProjectionIsFaithful(states[p].db, s);
  }

  /** A step that leaves the revision alone leaves the Session's view alone. */
  lemma TracksIdly(r: Replica, states: seq<World>, s: SessionId, p: nat, n: nat)
    requires Traced(states) && p < n < |states| && s in states[n].db.sessions && Tracks(r, states, s, p, n - 1)
    requires states[n - 1].db.sessions[s].timelineRevision == states[n].db.sessions[s].timelineRevision
    ensures Tracks(r, states, s, p, n)
  {
    hide Traced, Faithful, HoldsChanges;
    RevisionNamesView(states, n - 1, n, s);
    assert ViewAt(states, n - 1, s).revision == ViewAt(states, n, s).revision;
  }

  /**
   The timeline replica. Start from a projection taken at moment p and deliver changes of the Host's
   history in any order, any number of times, leaving out any: there is a moment j of the history
   whose timeline revision the copy has, every row it holds is the Host's row at j, every row that
   changed between p and j is held, rows ascend, and the copy renders the revision it is at.
   */
  lemma ReplicaTracksHost(states: seq<World>, events: seq<Event>, s: SessionId, p: nat, changes: seq<TimelineChange>)
    returns (j: nat)
    requires History(states, events) && p <= |events| && s in states[p].db.sessions
    requires forall k :: 0 <= k < |changes| ==> SentBySome(states, s, changes[k])
    ensures Tracks(Deliver(Project(states[p].db, s), changes), states, s, p, j)
  {
    HistoryIsTraced(states, events);
    j := ReplicaTracksTrace(states, s, p, changes);
  }

  /** Without loss or reordering the copy ends at the Host's last revision. */
  lemma LosslessDeliveryCatchesUp(states: seq<World>, events: seq<Event>, s: SessionId, p: nat, n: nat,
                                  changes: seq<TimelineChange>)
    requires History(states, events) && p <= n <= |events|
    requires forall k :: p <= k <= n ==> s in states[k].db.sessions
    requires AllChanges(states, s, p, n, changes)
    ensures Tracks(Deliver(Project(states[p].db, s), changes), states, s, p, n)
  {
    HistoryIsTraced(states, events);
    LosslessAlongTrace(states, s, p, n, changes);
  }
}
