/**
 The rows of the Authority database and the reads that its SQL performs on them.

 A table whose rows are never deleted (runs, timeline entries, interactions) is a sequence in
 insertion order and a row's identity is its index, which models a fresh UUID. Tables with
 caller-supplied keys are maps. A blob is named by its SHA-256 digest; taking the digest to be
 injective, the model uses the bytes themselves as the name.
 */
module AuthorityTables {
  import opened Options

  type SessionId = nat
  type RunId = nat
  type EntryId = nat
  type InteractionId = nat
  type CommandId = nat
  type ProjectId = nat
  type WorkspaceId = nat
  type Blob = string
  type Time = int

  datatype RunState =
    | Queued | Executing | Cancelling | Held
    | Completed | Failed | Cancelled | Interrupted
  {
    predicate Terminal() { Completed? || Failed? || Cancelled? || Interrupted? }

    /** The states in which a Run occupies its Session: queued, executing or held. */
    predicate Occupying() { Queued? || Executing? || Held? }
  }

  datatype Run = Run(session: SessionId, order: nat, prompt: string, state: RunState)

  datatype EntryKind =
    | PromptEntry | SteeringEntry | AssistantEntry | ToolEntry
    | InteractionEntry | LifecycleEntry | ResponseEntry | OutcomeEntry
  {
    /** The kinds written by a settlement. */
    predicate Settles() { ResponseEntry? || OutcomeEntry? }

    /** The kinds a fork counts as unread milestones. */
    predicate Milestone() { Settles() || InteractionEntry? }
  }

  datatype Entry = Entry(
    session: SessionId, run: RunId, order: nat, kind: EntryKind, text: string,
    checkpoint: Option<string>, blob: Option<Blob>,
    revision: nat, finalized: bool, tool: Option<string>)

  datatype InteractionState = Open | Resolving | Responded | Dismissed | Expired | Withdrawn
  {
    predicate Active() { Open? || Resolving? }
  }

  datatype Interaction = Interaction(
    session: SessionId, run: RunId, generation: nat, correlation: nat,
    state: InteractionState, revision: nat)

  datatype ReadState = ReadState(through: nat, unread: bool, revision: nat)

  datatype Session = Session(
    project: Option<ProjectId>, workspace: Option<WorkspaceId>, name: string,
    archived: bool, resident: bool, metadataRevision: nat, timelineRevision: nat,
    readThrough: nat, readRevision: nat, milestone: Option<nat>,
    parent: Option<(SessionId, EntryId)>)

  function ReadStateOf(row: Session): ReadState {
    ReadState(row.readThrough,
              row.milestone.Some? && row.milestone.value > row.readThrough,
              row.readRevision)
  }

  /** What a published Session summary carries, apart from the derived attention fields. */
  datatype Summary = Summary(
    project: Option<ProjectId>, workspace: Option<WorkspaceId>, name: string,
    archived: bool, resident: bool, metadataRevision: nat, timelineRevision: nat,
    readState: ReadState, parent: Option<(SessionId, EntryId)>)

  function SummaryOf(row: Session): Summary {
    Summary(row.project, row.workspace, row.name, row.archived, row.resident,
            row.metadataRevision, row.timelineRevision, ReadStateOf(row), row.parent)
  }

  datatype Change =
    | ProjectCreated(project: ProjectId, workspace: WorkspaceId)
    | SessionCreated(session: SessionId, summary: Summary)
    | SessionForked(session: SessionId, summary: Summary)
    | SessionArchived(session: SessionId, summary: Summary)
    | SessionRestored(session: SessionId, summary: Summary)
    | SessionRenamed(session: SessionId, summary: Summary)
    | ResidencyChanged(session: SessionId, summary: Summary)
    | ReadStateChanged(session: SessionId, readState: ReadState)

  /** A row of synchronization_changes. */
  datatype Logged = Logged(sequence: nat, committedAt: Time, change: Change)

  /** A synchronization position: the decoded form of a cursor. */
  datatype Position = Position(epoch: nat, sequence: nat)

  /** A command as its digest identifies it. */
  datatype Envelope =
    | SubmitEnvelope(commandId: CommandId, session: SessionId, prompt: string,
                     images: Option<Blob>, followUp: bool)
    | SteerEnvelope(commandId: CommandId, session: SessionId, run: RunId, generation: nat,
                    observed: nat, text: string, images: Option<Blob>)
    | StopEnvelope(commandId: CommandId, session: SessionId, run: RunId, generation: nat,
                   observed: nat)
    | RenameEnvelope(commandId: CommandId, session: SessionId, name: string, observed: nat)
    | AvailabilityEnvelope(commandId: CommandId, session: SessionId, observed: nat, archive: bool)
    | MarkReadEnvelope(commandId: CommandId, session: SessionId, presented: int)

  datatype Refusal =
    | UnknownSession | SessionIsArchived | SessionBusy | NoExecutingRun
    | StaleExecution | StalePrecondition | AlreadyArchived | NotArchived
    | SessionNotQuiescent | InvalidRevision

  datatype Effect =
    | Submitted(run: RunId)
    | Steered(entry: EntryId)
    | Stopped(run: RunId, entry: EntryId)
    | Renamed(renamed: Summary)
    | AvailabilityChanged(changed: Summary)
    | MarkedRead(advanced: bool, readState: ReadState)

  datatype Outcome =
    | Accepted(effect: Effect, position: Position)
    | Rejected(error: Refusal, position: Position)

  datatype Receipt = Receipt(envelope: Envelope, outcome: Outcome)

  /** What a command answers: a new outcome, the recorded one, or a refusal of the identity. */
  datatype Reply =
    | Fresh(outcome: Outcome)
    | Replayed(outcome: Outcome)
    | Conflict
    | Threw

  datatype Db = Db(
    epoch: nat, sequence: nat, committedAt: Time,
    projects: set<ProjectId>, workspaces: map<WorkspaceId, ProjectId>,
    sessions: map<SessionId, Session>,
    runs: seq<Run>, entries: seq<Entry>, interactions: seq<Interaction>,
    receipts: map<CommandId, Receipt>,
    changes: seq<Logged>,
    orphans: map<Blob, Time>, retained: set<Blob>)

  /** Completion evidence as it is found on disk. */
  datatype Evidence = Valid(text: string, checkpoint: string) | Corrupt

  /** The directories RunArtifactStore owns. */
  datatype Disk = Disk(live: set<Blob>, quarantined: set<Blob>, evidence: map<RunId, Evidence>)

  datatype World = World(db: Db, disk: Disk)

  // ---------------------------------------------------------------- reads over tables

  function NextRunOrder(runs: seq<Run>, s: SessionId): nat {
    if runs == [] then 1
    else
      var rest := NextRunOrder(runs[..|runs| - 1], s);
      var last := runs[|runs| - 1];
      if last.session == s && last.order >= rest then last.order + 1 else rest
  }

  function NextEntryOrder(entries: seq<Entry>, s: SessionId): nat {
    if entries == [] then 1
    else
      var rest := NextEntryOrder(entries[..|entries| - 1], s);
      var last := entries[|entries| - 1];
      if last.session == s && last.order >= rest then last.order + 1 else rest
  }

  /** The rows of one Session's timeline, in insertion order. */
  function Timeline(entries: seq<Entry>, s: SessionId): seq<Entry> {
    if entries == [] then []
    else
      var rest := Timeline(entries[..|entries| - 1], s);
      var last := entries[|entries| - 1];
      if last.session == s then rest + [last] else rest
  }

  /** The sum of the entry revisions of one Session. */
  function RevisionSum(entries: seq<Entry>, s: SessionId): nat {
    if entries == [] then 0
    else
      var last := entries[|entries| - 1];
      RevisionSum(entries[..|entries| - 1], s) + if last.session == s then last.revision else 0
  }

  /** How many response or outcome entries name a Run. */
  function SettlementCount(entries: seq<Entry>, r: RunId): nat {
    if entries == [] then 0
    else
      var last := entries[|entries| - 1];
      SettlementCount(entries[..|entries| - 1], r)
      + if last.run == r && last.kind.Settles() then 1 else 0
  }

  predicate SessionIsExecuting(runs: seq<Run>, s: SessionId) {
    exists i :: 0 <= i < |runs| && runs[i].session == s && runs[i].state.Executing?
  }

  predicate SessionOccupied(runs: seq<Run>, s: SessionId) {
    exists i :: 0 <= i < |runs| && runs[i].session == s && runs[i].state.Occupying()
  }

  predicate SessionHasActiveWork(db: Db, s: SessionId) {
    || (exists i :: 0 <= i < |db.runs| && db.runs[i].session == s && !db.runs[i].state.Terminal())
    || (exists i :: 0 <= i < |db.interactions|
                    && db.interactions[i].session == s && db.interactions[i].state.Active())
  }

  /** The last row satisfying the open-assistant query, or None. */
  function FindOpenAssistant(entries: seq<Entry>, s: SessionId, r: RunId): (found: Option<EntryId>)
    ensures found.Some? ==>
              && found.value < |entries| && entries[found.value].session == s
              && entries[found.value].run == r && !entries[found.value].finalized
              && entries[found.value].kind.AssistantEntry?
  {
    if entries == [] then None
    else
      var last := entries[|entries| - 1];
      if last.session == s && last.run == r && last.kind.AssistantEntry? && !last.finalized
      then Some(|entries| - 1)
      else FindOpenAssistant(entries[..|entries| - 1], s, r)
  }

  /** The first row satisfying the open-tool query, or None. */
  function FindOpenTool(entries: seq<Entry>, s: SessionId, r: RunId, tool: string): (found: Option<EntryId>)
    ensures found.Some? ==>
              && found.value < |entries| && entries[found.value].session == s
              && !entries[found.value].finalized
  {
    if entries == [] then None
    else
      var earlier := FindOpenTool(entries[..|entries| - 1], s, r, tool);
      var last := entries[|entries| - 1];
      if earlier.Some? then earlier
      else if last.session == s && last.run == r && last.tool == Some(tool) && !last.finalized
      then Some(|entries| - 1)
      else None
  }

  /** The queued Run of a Session with the lowest order, or None. */
  function FirstQueued(runs: seq<Run>, s: SessionId): (found: Option<RunId>)
    ensures found.Some? ==>
              && found.value < |runs| && runs[found.value].session == s
              && runs[found.value].state.Queued?
              && (forall i :: 0 <= i < |runs| && runs[i].session == s && runs[i].state.Queued?
                              ==> runs[found.value].order <= runs[i].order)
    ensures found.None? ==> forall i :: 0 <= i < |runs| && runs[i].session == s ==> !runs[i].state.Queued?
  {
    if runs == [] then None
    else
      var earlier := FirstQueued(runs[..|runs| - 1], s);
      var last := runs[|runs| - 1];
      if last.session != s || !last.state.Queued? then earlier
      else if earlier.Some? && runs[earlier.value].order <= last.order then earlier
      else Some(|runs| - 1)
  }

  // ---------------------------------------------------------------- facts about appended rows

  lemma {:induction false} NextRunOrderBounds(runs: seq<Run>, s: SessionId)
    ensures forall i :: 0 <= i < |runs| && runs[i].session == s ==> runs[i].order < NextRunOrder(runs, s)
  {
    if runs != [] {
      var front := runs[..|runs| - 1];
      NextRunOrderBounds(front, s);
      assert forall i :: 0 <= i < |front| ==> front[i] == runs[i];
    }
  }

  lemma {:induction false} NextEntryOrderBounds(entries: seq<Entry>, s: SessionId)
    ensures forall i :: 0 <= i < |entries| && entries[i].session == s ==> entries[i].order < NextEntryOrder(entries, s)
  {
    if entries != [] {
      var front := entries[..|entries| - 1];
      NextEntryOrderBounds(front, s);
      assert forall i :: 0 <= i < |front| ==> front[i] == entries[i];
    }
  }

  lemma AppendedTimeline(entries: seq<Entry>, e: Entry, s: SessionId)
    ensures Timeline(entries + [e], s) == Timeline(entries, s) + if e.session == s then [e] else []
  {
    assert (entries + [e])[..|entries|] == entries;
  }

  lemma AppendedRevisionSum(entries: seq<Entry>, e: Entry, s: SessionId)
    ensures RevisionSum(entries + [e], s)
         == RevisionSum(entries, s) + if e.session == s then e.revision else 0
  {
    assert (entries + [e])[..|entries|] == entries;
  }

  lemma AppendedSettlementCount(entries: seq<Entry>, e: Entry, r: RunId)
    ensures SettlementCount(entries + [e], r)
         == SettlementCount(entries, r) + if e.run == r && e.kind.Settles() then 1 else 0
  {
    assert (entries + [e])[..|entries|] == entries;
  }

  /** Updating a row in place moves the revision sum by the change of that row's revision. */
  lemma {:induction false} UpdatedRevisionSum(entries: seq<Entry>, i: nat, e: Entry, s: SessionId)
    requires i < |entries| && e.session == entries[i].session
    ensures RevisionSum(entries[i := e], s)
         == RevisionSum(entries, s) + if e.session == s then e.revision - entries[i].revision else 0
  {
    var n := |entries| - 1;
    if i == n {
      assert entries[i := e][..n] == entries[..n];
    } else {
      assert entries[i := e][..n] == entries[..n][i := e];
      UpdatedRevisionSum(entries[..n], i, e, s);
    }
  }

  lemma {:induction false} UpdatedSettlementCount(entries: seq<Entry>, i: nat, e: Entry, r: RunId)
    requires i < |entries| && e.run == entries[i].run && e.kind == entries[i].kind
    ensures SettlementCount(entries[i := e], r) == SettlementCount(entries, r)
  {
    var n := |entries| - 1;
    if i == n {
      assert entries[i := e][..n] == entries[..n];
    } else {
      assert entries[i := e][..n] == entries[..n][i := e];
      UpdatedSettlementCount(entries[..n], i, e, r);
    }
  }

  // ---------------------------------------------------------------- dense orders

  /** Every timeline numbers its rows 1, 2, 3, ... in insertion order. */
  ghost predicate Dense(entries: seq<Entry>) {
    forall i {:trigger entries[i]} :: 0 <= i < |entries|
      ==> entries[i].order == |Timeline(entries[..i], entries[i].session)| + 1
  }

  lemma DenseFront(entries: seq<Entry>)
    requires entries != [] && Dense(entries)
    ensures Dense(entries[..|entries| - 1])
  {
    var front := entries[..|entries| - 1];
    forall i | 0 <= i < |front|
      ensures front[i].order == |Timeline(front[..i], front[i].session)| + 1
    {
      assert front[..i] == entries[..i] && front[i] == entries[i];
    }
  }

  /** The next order is one more than the number of rows, so numbering stays dense. */
  lemma {:induction false} NextEntryOrderIsCount(entries: seq<Entry>, s: SessionId)
    requires Dense(entries)
    ensures NextEntryOrder(entries, s) == |Timeline(entries, s)| + 1
  {
    if entries != [] {
      DenseFront(entries);
      NextEntryOrderIsCount(entries[..|entries| - 1], s);
      assert entries[|entries| - 1].session == s ==>
          entries[|entries| - 1].order == |Timeline(entries[..|entries| - 1], s)| + 1;
    }
  }

  lemma DenseAppend(entries: seq<Entry>, e: Entry)
    requires Dense(entries) && e.order == |Timeline(entries, e.session)| + 1
    ensures Dense(entries + [e])
  {
    var all := entries + [e];
    forall i | 0 <= i < |all|
      ensures all[i].order == |Timeline(all[..i], all[i].session)| + 1
    {
      if i < |entries| {
        assert all[..i] == entries[..i] && all[i] == entries[i];
      } else {
        assert all[..i] == entries;
      }
    }
  }

  lemma {:induction false} UpdatedTimelineLength(entries: seq<Entry>, i: nat, e: Entry, s: SessionId)
    requires i < |entries| && e.session == entries[i].session
    ensures |Timeline(entries[i := e], s)| == |Timeline(entries, s)|
  {
    var n := |entries| - 1;
    if i == n {
      assert entries[i := e][..n] == entries[..n];
    } else {
      assert entries[i := e][..n] == entries[..n][i := e];
      UpdatedTimelineLength(entries[..n], i, e, s);
    }
  }

  lemma DenseUpdate(entries: seq<Entry>, i: nat, e: Entry)
    requires Dense(entries) && i < |entries|
    requires e.session == entries[i].session && e.order == entries[i].order
    ensures Dense(entries[i := e])
  {
    var all := entries[i := e];
    forall j | 0 <= j < |all|
      ensures all[j].order == |Timeline(all[..j], all[j].session)| + 1
    {
      assert entries[j].order == |Timeline(entries[..j], entries[j].session)| + 1;
      if i < j {
        assert all[..j] == entries[..j][i := e];
        UpdatedTimelineLength(entries[..j], i, e, all[j].session);
      } else {
        assert all[..j] == entries[..j];
      }
    }
  }

  /** In a dense table the k-th row of a timeline has order k + 1. */
  lemma {:induction false} TimelineOrders(entries: seq<Entry>, s: SessionId)
    requires Dense(entries)
    ensures forall k :: 0 <= k < |Timeline(entries, s)| ==>
              Timeline(entries, s)[k].order == k + 1 && Timeline(entries, s)[k].session == s
  {
    if entries != [] {
      DenseFront(entries);
      TimelineOrders(entries[..|entries| - 1], s);
      assert entries[|entries| - 1].session == s ==>
          entries[|entries| - 1].order == |Timeline(entries[..|entries| - 1], s)| + 1;
    }
  }

  lemma {:induction false} TimelineRows(entries: seq<Entry>, s: SessionId, k: nat) returns (i: nat)
    requires k < |Timeline(entries, s)|
    ensures i < |entries| && entries[i] == Timeline(entries, s)[k]
  {
    var n := |entries| - 1;
    if entries[n].session == s && k == |Timeline(entries, s)| - 1 {
      i := n;
    } else {
      i := TimelineRows(entries[..n], s, k);
    }
  }
}
