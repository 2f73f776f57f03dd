/**
 The Client's copy of each Session's read state, which takes facts in any order and any number of times.
 */
module ReadStateReplica {
  import opened Options
  import opened AuthorityTables
  import opened AuthorityOperations
  import opened AuthorityInvariants
  import opened AuthorityHistory
  import opened AuthorityGuarantees

  /** readStateIsStale: superseded, or older than what an in-flight mark-read claims. */
  predicate IsStale(mark: Option<nat>, held: Option<ReadState>, next: ReadState) {
    || (held.Some? && next.revision < held.value.revision)
    || Suppressed(mark, next)
  }

  predicate Suppressed(mark: Option<nat>, next: ReadState) {
    mark.Some? && next.unread && next.through < mark.value
  }

  function Keep(mark: Option<nat>, held: Option<ReadState>, next: ReadState): Option<ReadState> {
    if IsStale(mark, held, next) then held else Some(next)
  }

  /** The discovery catalog's read states and the mark-read commands in flight. */
  class DiscoveryView {
    var sessions: map<SessionId, Option<ReadState>>
    var pendingReadMarks: map<SessionId, nat>

    function MarkOf(s: SessionId): Option<nat> reads this {
      if s in pendingReadMarks then Some(pendingReadMarks[s]) else None
    }

    constructor (catalog: map<SessionId, Option<ReadState>>)
      ensures sessions == catalog && pendingReadMarks == map[]
    {
      sessions, pendingReadMarks := catalog, map[];
    }

    /** A fact about a Session the catalog does not name is dropped. */
    method SessionReadStateChanged(s: SessionId, readState: ReadState)
      modifies this`sessions
      ensures sessions == if s in old(sessions)
                          then old(sessions)[s := Keep(MarkOf(s), old(sessions)[s], readState)] else old(sessions)
      ensures s in sessions ==>
                var dropped := (old(sessions)[s].Some? && readState.revision < old(sessions)[s].value.revision)
                               || (s in pendingReadMarks && readState.unread && readState.through < pendingReadMarks[s]);
                sessions[s] == if dropped then old(sessions)[s] else Some(readState)
    {
      if s in sessions {
        var session := sessions[s];
        if session.Some? && readState.revision < session.value.revision {
          assert sessions[s := session] == sessions;
          return;
        }
        if s in pendingReadMarks && readState.unread && readState.through < pendingReadMarks[s] {
          assert sessions[s := session] == sessions;
          return;
        }
        sessions := sessions[s := Some(readState)];
      }
    }

    method BeginMark(s: SessionId, revision: nat)
      modifies this`pendingReadMarks
      ensures MarkOf(s) == Some(revision) && forall t :: t != s ==> MarkOf(t) == old(MarkOf(t))
    {
      pendingReadMarks := pendingReadMarks[s := revision];
    }

    /** Ends the mark it began, and not one begun since. */
    method EndMark(s: SessionId, revision: nat)
      modifies this`pendingReadMarks
      ensures MarkOf(s) == if old(MarkOf(s)) == Some(revision) then None else old(MarkOf(s))
      ensures forall t :: t != s ==> MarkOf(t) == old(MarkOf(t))
    {
      if s in pendingReadMarks && pendingReadMarks[s] == revision {
        pendingReadMarks := pendingReadMarks - {s};
      }
    }
  }

  // ---------------------------------------------------------------- any order, any number of times

  /** A fact as it arrives, with the mark in flight at that moment. */
  datatype Arrival = Arrival(readState: ReadState, mark: Option<nat>)

  function Arrive(held: Option<ReadState>, arrivals: seq<Arrival>): Option<ReadState> {
    if arrivals == [] then held
    else
      var last := arrivals[|arrivals| - 1];
      Keep(last.mark, Arrive(held, arrivals[..|arrivals| - 1]), last.readState)
  }

  /** A read state the Host had at some moment of a history. */
  ghost predicate HostFact(states: seq<World>, s: SessionId, fact: ReadState) {
    exists k :: 0 <= k < |states| && s in states[k].db.sessions && ReadStateOf(states[k].db.sessions[s]) == fact
  }

  /** A fact that reached the copy: the one it started from, or one that no mark suppressed. */
  ghost predicate Reached(held: Option<ReadState>, arrivals: seq<Arrival>, fact: ReadState) {
    held == Some(fact)
    || exists k :: 0 <= k < |arrivals| && arrivals[k].readState == fact && !Suppressed(arrivals[k].mark, fact)
  }

  lemma ReachedSplits(held: Option<ReadState>, arrivals: seq<Arrival>, fact: ReadState)
    requires arrivals != []
    ensures var n := |arrivals| - 1;
            Reached(held, arrivals, fact)
            <==> Reached(held, arrivals[..n], fact)
                 || (arrivals[n].readState == fact && !Suppressed(arrivals[n].mark, fact))
  {
    var n := |arrivals| - 1;
    assert forall k :: 0 <= k < n ==> arrivals[..n][k] == arrivals[k];
  }

  /** A fact is suppressed exactly if it calls unread what a mark in flight has already presented. */
  lemma SuppressedExactly(mark: Option<nat>, fact: ReadState)
    ensures Suppressed(mark, fact) <==> fact.unread && exists revision :: mark == Some(revision) && fact.through < revision
  {}

  /** The copy is one of the facts that reached it, and none of those has a greater revision. */
  ghost predicate Newest(held: Option<ReadState>, arrivals: seq<Arrival>, copy: Option<ReadState>) {
    && (copy.Some? ==> Reached(held, arrivals, copy.value))
    && forall fact :: Reached(held, arrivals, fact) ==> copy.Some? && fact.revision <= copy.value.revision
  }

  lemma {:induction false} CopyIsNewest(held: Option<ReadState>, arrivals: seq<Arrival>)
    ensures Newest(held, arrivals, Arrive(held, arrivals))
  {
    if arrivals != [] {
      var n := |arrivals| - 1;
      CopyIsNewest(held, arrivals[..n]);
      forall fact: ReadState
        ensures Reached(held, arrivals, fact)
                <==> Reached(held, arrivals[..n], fact)
                     || (arrivals[n].readState == fact && !Suppressed(arrivals[n].mark, fact))
      {
        ReachedSplits(held, arrivals, fact);
      }
      hide Reached;
    }
  }

  /** A revision names one Host fact. */
  lemma FactsOfOneRevisionAgree(states: seq<World>, s: SessionId, a: ReadState, b: ReadState)
    requires Traced(states) && HostFact(states, s, a) && HostFact(states, s, b) && a.revision == b.revision
    ensures a == b
  {
    var i :| 0 <= i < |states| && s in states[i].db.sessions && ReadStateOf(states[i].db.sessions[s]) == a;
    var k :| 0 <= k < |states| && s in states[k].db.sessions && ReadStateOf(states[k].db.sessions[s]) == b;
    if i <= k {
      ReadStatesAlongTrace(states, i, k, s);
    } else {
      ReadStatesAlongTrace(states, k, i, s);
    }
  }

  /**
   The read-state replica. Two copies that the same facts of the Host's history reached, whatever the
   order, the repetition and the marks in flight, are equal; and each is the fact of greatest revision.
   */
  lemma CopiesAgree(states: seq<World>, events: seq<Event>, s: SessionId, held: Option<ReadState>, arrivals: seq<Arrival>,
                    otherHeld: Option<ReadState>, others: seq<Arrival>)
    requires History(states, events)
    requires forall fact :: Reached(held, arrivals, fact) ==> HostFact(states, s, fact)
    requires forall fact :: Reached(held, arrivals, fact) <==> Reached(otherHeld, others, fact)
    ensures Arrive(held, arrivals) == Arrive(otherHeld, others)
    ensures Newest(held, arrivals, Arrive(held, arrivals))
  {
    CopyIsNewest(held, arrivals);
    CopyIsNewest(otherHeld, others);
    var a, b := Arrive(held, arrivals), Arrive(otherHeld, others);
    HistoryIsTraced(states, events);
    hide Reached, Traced, HostFact;
    if a.Some? && b.Some? {
      FactsOfOneRevisionAgree(states, s, a.value, b.value);
    }
  }

  /**
   The fact a mark waits for is never lost to it: once the Host has accepted the mark, its read state
   is not suppressed, and supersedes every fact the Host had before, suppressed ones included.
   */
  lemma AcceptedMarkSupersedes(states: seq<World>, events: seq<Event>, n: nat, k: nat, s: SessionId, env: Envelope)
    requires History(states, events) && k <= n < |events| && s in states[k].db.sessions
    requires env.MarkReadEnvelope? && env.session == s && events[n].op.CommandOp? && events[n].op.envelope == env
    requires var reply := AnswerAt(states, events, n).1;
             reply.Fresh? && reply.outcome.Accepted? && reply.outcome.effect.MarkedRead? && reply.outcome.effect.advanced
    ensures s in states[n + 1].db.sessions
    ensures var marked := ReadStateOf(states[n + 1].db.sessions[s]);
            && env.presented >= 0 && !Suppressed(Some(env.presented), marked)
            && Keep(Some(env.presented), Some(ReadStateOf(states[k].db.sessions[s])), marked) == Some(marked)
            && marked.revision > ReadStateOf(states[k].db.sessions[s]).revision
  {
    ReadStateRevisionIsFaithful(states, events, k, n, s);
    assert states[n + 1] == Apply(states[n], events[n].op, events[n].now);
    hide History;
  }
}
