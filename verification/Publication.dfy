/**
 Staged publication of a file or tree: materialize beside the target, validate, flush, rename, flush the
 parent directory, with a crash or a thrown error at any step.

 File bytes survive a crash only once they are flushed. A directory's entry is sure only once that directory
 is flushed; until then a crash may find any entry made since its last flush, or the one before them, and
 of a whole directory any part of its entries. Two things depend on the platform: whether directories can be
 flushed at all, and whether entries are ordered, so that an entry reaches the disk only after those that
 lead to it, and a renamed directory only after the entries inside it.
 */
module Publication {
  import opened Options

  /**
   What a path holds. A directory's entries are sorted strictly by name, as a listing gives them; it is sure
   if a crash that finds it finds them all.
   */
  datatype Node =
    | FileNode(bytes: string, flushed: bool)
    | DirNode(entries: seq<Entry>, sure: bool)
    | LinkNode(resolved: Node)
    | OddNode

  datatype Entry = Entry(name: string, node: Node)

  /** Contents as a reader sees them: no flush state. */
  datatype Tree = FileTree(bytes: string) | DirTree(entries: seq<(string, Tree)>) | LinkTree(resolved: Tree) | OddTree

  function Content(node: Node): Tree {
    match node
    case FileNode(bytes, _) => FileTree(bytes)
    case DirNode(entries, _) =>
      DirTree(seq(|entries|, i requires 0 <= i < |entries| => (entries[i].name, Content(entries[i].node))))
    case LinkNode(resolved) => LinkTree(Content(resolved))
    case OddNode => OddTree
  }

  /** Only directories and regular files. */
  predicate Regular(node: Node) {
    match node
    case FileNode(_, _) => true
    case DirNode(entries, _) => forall i :: 0 <= i < |entries| ==> Regular(entries[i].node)
    case LinkNode(_) => false
    case OddNode => false
  }

  /** Every file flushed; directories as they were. */
  function Flushed(node: Node): Node {
    match node
    case FileNode(bytes, _) => FileNode(bytes, true)
    case DirNode(entries, sure) =>
      DirNode(seq(|entries|, i requires 0 <= i < |entries| => Entry(entries[i].name, Flushed(entries[i].node))), sure)
    case _ => node
  }

  /** A node after a rename: where entries are ordered, those inside it precede its new name. */
  function Moved(node: Node, ordered: bool): Node {
    match node
    case DirNode(entries, sure) =>
      DirNode(seq(|entries|, i requires 0 <= i < |entries| => Entry(entries[i].name, Moved(entries[i].node, ordered))),
              sure || ordered)
    case _ => node
  }

  /** Positions of a part of n things, in their order. */
  predicate Part(picks: seq<nat>, n: nat) {
    (forall k :: 0 <= k < |picks| ==> picks[k] < n) && forall j, k :: 0 <= j < k < |picks| ==> picks[j] < picks[k]
  }

  /**
   The trees a crash can leave of a node: unflushed bytes may be anything, and of a directory that is not
   sure there may be any part.
   */
  ghost predicate Survives(node: Node, tree: Tree) {
    match node
    case FileNode(bytes, flushed) => tree.FileTree? && (flushed ==> tree.bytes == bytes)
    case DirNode(entries, sure) =>
      && tree.DirTree?
      && if sure then
           && |tree.entries| == |entries|
           && forall i :: 0 <= i < |entries| ==>
                tree.entries[i].0 == entries[i].name && Survives(entries[i].node, tree.entries[i].1)
         else
           exists picks ::
             && Part(picks, |entries|) && |picks| == |tree.entries|
             && forall k :: 0 <= k < |picks| ==>
                  tree.entries[k].0 == entries[picks[k]].name && Survives(entries[picks[k]].node, tree.entries[k].1)
    case LinkNode(resolved) => tree.LinkTree? && Survives(resolved, tree.resolved)
    case OddNode => tree == OddTree
  }

  /** Nothing of the node can be lost: every byte is flushed and every entry sure. */
  predicate Lasting(node: Node) {
    match node
    case FileNode(_, flushed) => flushed
    case DirNode(entries, sure) => (sure || entries == []) && forall i :: 0 <= i < |entries| ==> Lasting(entries[i].node)
    case LinkNode(resolved) => Lasting(resolved)
    case OddNode => true
  }

  /** No directory in the node has an entry that is not sure. */
  predicate SureEntries(node: Node) {
    node.DirNode? ==>
      (node.sure || node.entries == []) && forall i :: 0 <= i < |node.entries| ==> SureEntries(node.entries[i].node)
  }

  /** Flushing the files and renaming makes a node lasting exactly if entries are ordered or were sure. */
  lemma {:induction false} MovedLastsExactly(node: Node, ordered: bool)
    requires Regular(node)
    ensures Lasting(Moved(Flushed(node), ordered)) <==> ordered || SureEntries(node)
  {
    match node
    case FileNode(_, _) =>
    case DirNode(entries, sure) =>
      var moved := Moved(Flushed(node), ordered);
      forall i | 0 <= i < |entries|
        ensures moved.entries[i].node == Moved(Flushed(entries[i].node), ordered)
        ensures Lasting(moved.entries[i].node) <==> ordered || SureEntries(entries[i].node)
      {
        MovedLastsExactly(entries[i].node, ordered);
      }
      if !ordered && sure && !SureEntries(node) {
        var i :| 0 <= i < |entries| && !SureEntries(entries[i].node);
        assert !Lasting(moved.entries[i].node);
      }
  }

  lemma {:induction false} PartIsNoLarger(picks: seq<nat>, n: nat)
    requires Part(picks, n)
    ensures |picks| <= n
  {
    if picks != [] {
      PartIsNoLarger(picks[..|picks| - 1], picks[|picks| - 1]);
    }
  }

  lemma EmptySurvivesEmpty(node: Node, tree: Tree)
    requires node.DirNode? && Survives(node, tree)
    ensures node.entries == [] ==> tree.entries == []
  {
    if !node.sure && node.entries == [] {
      var picks: seq<nat> :| Part(picks, 0) && |picks| == |tree.entries|;
      PartIsNoLarger(picks, 0);
    }
  }

  lemma {:induction false} LastingSurvivesWhole(node: Node, tree: Tree)
    requires Lasting(node) && Survives(node, tree)
    ensures tree == Content(node)
  {
    match node
    case FileNode(_, _) =>
    case DirNode(entries, sure) =>
      EmptySurvivesEmpty(node, tree);
      forall i | 0 <= i < |tree.entries|
        ensures tree.entries[i] == (entries[i].name, Content(entries[i].node))
      {
        LastingSurvivesWhole(entries[i].node, tree.entries[i].1);
      }
    case LinkNode(resolved) => LastingSurvivesWhole(resolved, tree.resolved);
    case OddNode =>
  }

  lemma {:induction false} ContentMaySurvive(node: Node)
    ensures Survives(node, Content(node))
  {
    match node
    case FileNode(_, _) =>
    case DirNode(entries, _) =>
      forall i | 0 <= i < |entries|
        ensures Survives(entries[i].node, Content(entries[i].node))
      {
        ContentMaySurvive(entries[i].node);
      }
      EntriesMaySurvive(node, Content(node));
    case LinkNode(resolved) => ContentMaySurvive(resolved);
    case OddNode =>
  }

  /** A directory may survive with all its entries. */
  lemma EntriesMaySurvive(node: Node, tree: Tree)
    requires node.DirNode? && tree.DirTree? && |tree.entries| == |node.entries|
    requires forall i :: 0 <= i < |node.entries| ==>
               tree.entries[i].0 == node.entries[i].name && Survives(node.entries[i].node, tree.entries[i].1)
    ensures Survives(node, tree)
  {
    var picks: seq<nat> := seq(|node.entries|, i => i);
    assert Part(picks, |node.entries|);
  }

  lemma UnsureMaySurviveEmpty(node: Node)
    requires node.DirNode? && !node.sure
    ensures Survives(node, DirTree([]))
  {
    var none: seq<nat> := [];
    assert Part(none, |node.entries|);
  }

  /** A node with an unflushed byte or an entry that is not sure may survive as something else. */
  lemma {:induction false} UnflushedMayChange(node: Node) returns (tree: Tree)
    requires !Lasting(node)
    ensures Survives(node, tree) && tree != Content(node)
  {
    match node
    case FileNode(bytes, _) =>
      tree := FileTree(bytes + "x");
      assert |tree.bytes| > |bytes|;
    case DirNode(entries, sure) =>
      if !sure && entries != [] {
        tree := DirTree([]);
        UnsureMaySurviveEmpty(node);
        assert |Content(node).entries| == |entries|;
      } else {
        var i :| 0 <= i < |entries| && !Lasting(entries[i].node);
        var changed := UnflushedMayChange(entries[i].node);
        forall k | 0 <= k < |entries|
          ensures Survives(entries[k].node, Content(entries[k].node))
        {
          ContentMaySurvive(entries[k].node);
        }
        tree := DirTree(Content(node).entries[i := (entries[i].name, changed)]);
        EntriesMaySurvive(node, tree);
        assert tree.entries[i].1 != Content(node).entries[i].1;
      }
    case LinkNode(resolved) =>
      var changed := UnflushedMayChange(resolved);
      tree := LinkTree(changed);
  }

  lemma {:induction false} FlushingKeepsContent(node: Node)
    requires Regular(node)
    ensures Content(Flushed(node)) == Content(node) && Regular(Flushed(node))
  {
    match node
    case FileNode(_, _) =>
    case DirNode(entries, _) =>
      forall i | 0 <= i < |entries|
        ensures Content(Flushed(entries[i].node)) == Content(entries[i].node) && Regular(Flushed(entries[i].node))
      {
        FlushingKeepsContent(entries[i].node);
      }
  }

  lemma {:induction false} MovingKeepsContent(node: Node, ordered: bool)
    requires Regular(node)
    ensures Content(Moved(node, ordered)) == Content(node) && Regular(Moved(node, ordered))
  {
    match node
    case FileNode(_, _) =>
    case DirNode(entries, _) =>
      forall i | 0 <= i < |entries|
        ensures Content(Moved(entries[i].node, ordered)) == Content(entries[i].node) && Regular(Moved(entries[i].node, ordered))
      {
        MovingKeepsContent(entries[i].node, ordered);
      }
  }

  // ---------------------------------------------------------------- equivalence

  /** What stat finds at a path: links are followed. */
  function Followed(tree: Tree): Tree {
    match tree
    case LinkTree(resolved) => Followed(resolved)
    case _ => tree
  }

  /** A tree with every link replaced by what it leads to. */
  function Dereferenced(tree: Tree): Tree {
    match tree
    case LinkTree(resolved) => Dereferenced(resolved)
    case DirTree(entries) =>
      DirTree(seq(|entries|, i requires 0 <= i < |entries| => (entries[i].0, Dereferenced(entries[i].1))))
    case _ => tree
  }

  predicate LinkFree(tree: Tree) {
    match tree
    case FileTree(_) => true
    case DirTree(entries) => forall i :: 0 <= i < |entries| ==> LinkFree(entries[i].1)
    case _ => false
  }

  lemma {:induction false} FollowingIsDereferencing(tree: Tree)
    ensures Dereferenced(Followed(tree)) == Dereferenced(tree) && !Followed(tree).LinkTree?
  {
    if tree.LinkTree? {
      FollowingIsDereferencing(tree.resolved);
    }
  }

  /** areEquivalent: the left path decides at each level whether files or directories are compared. */
  predicate AreEquivalent(left: Tree, right: Tree)
    requires LinkFree(left)
    decreases left
  {
    var found := Followed(right);
    match left
    case FileTree(bytes) => found == FileTree(bytes)
    case DirTree(entries) =>
      && found.DirTree? && |found.entries| == |entries|
      && forall i :: 0 <= i < |entries| ==>
           entries[i].0 == found.entries[i].0 && AreEquivalent(entries[i].1, found.entries[i].1)
  }

  /** Two paths are equivalent exactly when they hold the same tree, links on the right followed. */
  lemma {:induction false} EquivalentExactlyWhenEqual(left: Tree, right: Tree)
    requires LinkFree(left)
    ensures AreEquivalent(left, right) <==> left == Dereferenced(right)
    decreases left
  {
    FollowingIsDereferencing(right);
    var found := Followed(right);
    match left
    case FileTree(_) =>
    case DirTree(entries) =>
      if found.DirTree? && |found.entries| == |entries| {
        forall i | 0 <= i < |entries|
          ensures AreEquivalent(entries[i].1, found.entries[i].1) <==> entries[i].1 == Dereferenced(found.entries[i].1)
        {
          EquivalentExactlyWhenEqual(entries[i].1, found.entries[i].1);
        }
        var whole := Dereferenced(found);
        assert left == whole ==> forall i :: 0 <= i < |entries| ==> entries[i] == whole.entries[i];
        assert AreEquivalent(left, right) ==> entries == whole.entries;
      }
  }

  lemma {:induction false} RegularIsLinkFree(node: Node)
    requires Regular(node)
    ensures LinkFree(Content(node))
  {
    match node
    case FileNode(_, _) =>
    case DirNode(entries, _) =>
      forall i | 0 <= i < |entries|
        ensures LinkFree(Content(entries[i].node))
      {
        RegularIsLinkFree(entries[i].node);
      }
  }

  // ---------------------------------------------------------------- the protocol

  datatype Kind = AsFile | AsTree

  datatype Mode = Immutable | Replace

  datatype PublicationStep =
    | StageCreated | Materialized | ValidatedBefore | FilesFlushed | WritersClosed
    | TargetPublished | ValidatedAfter | ParentFlushed | ParentFlushUnsupported | StageCleaned

  /** The step at which something goes wrong: the adapter throws, or the process dies. */
  datatype Stop = Stop(step: PublicationStep, crashes: bool)

  /**
   What is published, as what its callbacks do: the node materialize leaves at the staged path, whether
   it returns, the validator, and whether every descriptor it opened is closed. The last two are the
   platform's.
   */
  datatype Request = Request(kind: Kind, mode: Mode, product: Option<Node>, materializes: bool,
                             valid: Tree -> bool, writersClosed: bool,
                             flushesDirectories: bool, ordersEntries: bool)

  datatype Signal = Going | Published | AlreadyPublished | Collided | Threw | Crashed

  /** The directory of the target: not there, there but such that a crash may lose it, or sure to be there. */
  datatype Parent = Absent | Unsure | Sure

  /** The target, the entries it had that a crash may still bring back, and the staged candidate beside it. */
  datatype Folder = Folder(parent: Parent, target: Option<Node>, earlier: seq<Option<Node>>, stage: Option<Node>)
  {
    /** What the target's directory entry may name after a crash. */
    function Entries(): seq<Option<Node>> { earlier + [target] }

    /** The same but for the staged candidate. */
    ghost predicate Like(other: Folder) { this == other.(stage := stage) }
  }

  /** mkdir of the target's directory. */
  function Opened(a: Folder): Folder { a.(parent := if a.parent.Absent? then Unsure else a.parent) }

  /** After a flush of that directory, where the platform can: its own entry is sure only if entries are ordered. */
  function AfterFlush(a: Folder, request: Request): Folder {
    if !request.flushesDirectories then a
    else a.(earlier := [], parent := if request.ordersEntries then Sure else a.parent)
  }

  /** The signal of reaching a step, given where the run stops. */
  function Reached(step: PublicationStep, stop: Option<Stop>): Signal {
    if stop.None? || stop.value.step != step then Going else if stop.value.crashes then Crashed else Threw
  }

  predicate KindFits(kind: Kind, node: Node) {
    match kind
    case AsFile => node.FileNode?
    case AsTree => node.DirNode?
  }

  /** rename refuses to put a file over a directory, and a directory over anything but an empty one. */
  predicate Renames(kind: Kind, target: Option<Node>) {
    target.None? || match kind
      case AsFile => !target.value.DirNode?
      case AsTree => target.value.DirNode? && target.value.entries == []
  }

  /** What prepareStagedCandidate checks of the staged node. */
  predicate Acceptable(request: Request) {
    && request.materializes && request.product.Some? && KindFits(request.kind, request.product.value)
    && request.valid(Content(request.product.value)) && Regular(request.product.value) && request.writersClosed
  }

  /** The candidate as the rename leaves it at the target. */
  function Placed(request: Request): Node
    requires request.product.Some?
  {
    Moved(Flushed(request.product.value), request.ordersEntries)
  }

  predicate Reusable(request: Request, candidate: Node, target: Node)
    requires Regular(candidate)
  {
    RegularIsLinkFree(candidate);
    AreEquivalent(Content(candidate), Content(target)) && request.valid(Content(target))
  }

  class Publisher {
    var parent: Parent
    var target: Option<Node>
    var earlier: seq<Option<Node>>
    var stage: Option<Node>

    function State(): Folder reads this { Folder(parent, target, earlier, stage) }

    constructor (folder: Folder)
      ensures State() == folder
    {
      parent, target, earlier, stage := folder.parent, folder.target, folder.earlier, folder.stage;
    }

    /** Where directories cannot be flushed this only says so. */
    method FlushParentDirectory(request: Request, stop: Option<Stop>) returns (signal: Signal)
      modifies this`earlier, this`parent
      ensures State() == AfterFlush(old(State()), request)
      ensures signal == Reached(LastStep(request), stop)
    {
      if request.flushesDirectories {
        earlier := [];
        if request.ordersEntries {
          parent := Sure;
        }
        signal := Reached(ParentFlushed, stop);
      } else {
        signal := Reached(ParentFlushUnsupported, stop);
      }
    }

    /** Leaves a flushed, validated candidate at the staged path, or says why not. */
    method PrepareStagedCandidate(request: Request, stop: Option<Stop>) returns (signal: Signal)
      modifies this`stage
      ensures signal in {Going, Threw, Crashed} && (signal == Crashed ==> stop.Some? && stop.value.crashes)
      ensures signal == Going ==> Acceptable(request) && stage == Some(Flushed(request.product.value))
      ensures signal == Going <==> Acceptable(request) && Passes(stop, PREPARATION)
    {
      stage := if request.kind.AsTree? then Some(DirNode([], false)) else None;
      signal := Reached(StageCreated, stop);
      if signal != Going {
        return;
      }
      stage := request.product;
      if !request.materializes {
        return Threw;
      }
      signal := Reached(Materialized, stop);
      if signal != Going {
        return;
      }
      if stage.None? || !KindFits(request.kind, stage.value) || !request.valid(Content(stage.value)) {
        return Threw;
      }
      signal := Reached(ValidatedBefore, stop);
      if signal != Going {
        return;
      }
      if !Regular(stage.value) {
        return Threw;
      }
      stage := Some(Flushed(stage.value));
      signal := Reached(FilesFlushed, stop);
      if signal != Going {
        return;
      }
      if !request.writersClosed {
        return Threw;
      }
      signal := Reached(WritersClosed, stop);
    }

    method PublishStagedCandidate(request: Request, stop: Option<Stop>) returns (signal: Signal)
      requires Acceptable(request) && stage == Some(Flushed(request.product.value))
      modifies this
      ensures if !Renames(request.kind, old(target)) then State() == old(State())
              else stage.None? && (State().Like(Switched(old(State()), request))
                                   || State().Like(AfterFlush(Switched(old(State()), request), request)))
      ensures signal in {Going, Threw, Crashed} && (signal == Crashed ==> stop.Some? && stop.value.crashes)
      ensures signal == Going ==> State().Like(AfterFlush(Switched(old(State()), request), request))
      ensures signal == Going <==> Renames(request.kind, old(target)) && Passes(stop, Publication(request))
    {
      if !Renames(request.kind, target) {
        return Threw;
      }
      target, earlier, stage := Some(Moved(stage.value, request.ordersEntries)), earlier + [target], None;
      signal := Reached(TargetPublished, stop);
      if signal != Going {
        return;
      }
      FlushingKeepsContent(request.product.value);
      MovingKeepsContent(Flushed(request.product.value), request.ordersEntries);
      if !request.valid(Content(target.value)) {
        return Threw;
      }
      signal := Reached(ValidatedAfter, stop);
      if signal != Going {
        return;
      }
      signal := FlushParentDirectory(request, stop);
    }

    /** The body of publish's try block. */
    method Attempt(request: Request, stop: Option<Stop>) returns (signal: Signal)
      modifies this
      ensures signal != Going && Attempted(old(State()), State(), request, signal)
      ensures signal == Crashed ==> stop.Some? && stop.value.crashes
      ensures Succeeds(old(State()), request, stop, signal)
    {
      signal := PrepareStagedCandidate(request, stop);
      if signal != Going {
        return;
      }
      FlushingKeepsContent(request.product.value);
      if request.mode.Immutable? && target.Some? {
        if !Reusable(request, stage.value, target.value) {
          return Collided;
        }
        signal := FlushParentDirectory(request, stop);
        return if signal == Going then AlreadyPublished else signal;
      }
      signal := PublishStagedCandidate(request, stop);
      return if signal == Going then Published else signal;
    }

    /**
     publish: the target's directory is made, then the attempt, then the staged path is cleaned unless the
     process died or kept it as evidence.
     */
    method Publish(request: Request, stop: Option<Stop>) returns (signal: Signal)
      modifies this
      ensures Publishes(old(State()), State(), request, stop, signal)
    {
      if parent.Absent? {
        parent := Unsure;
      }
      signal := Attempt(request, stop);
      ghost var between, first := State(), signal;
      if signal != Crashed && signal != Collided && stage.Some? {
        stage := None;
        var cleaned := Reached(StageCleaned, stop);
        if cleaned != Going {
          signal := cleaned;
        }
      }
      assert Cleaned(between, State(), first, signal, stop);
    }
  }

  const PREPARATION := {StageCreated, Materialized, ValidatedBefore, FilesFlushed, WritersClosed}

  function LastStep(request: Request): PublicationStep {
    if request.flushesDirectories then ParentFlushed else ParentFlushUnsupported
  }

  function Publication(request: Request): set<PublicationStep> {
    {TargetPublished, ValidatedAfter, LastStep(request)}
  }

  predicate Passes(stop: Option<Stop>, steps: set<PublicationStep>) {
    stop.None? || stop.value.step !in steps
  }

  /** Exactly when an attempt publishes, finds itself published, or collides. */
  ghost predicate Succeeds(a: Folder, request: Request, stop: Option<Stop>, signal: Signal) {
    var meets := request.mode.Immutable? && a.target.Some?;
    && (signal == Published <==>
          Acceptable(request) && !meets && Renames(request.kind, a.target)
          && Passes(stop, PREPARATION + Publication(request)))
    && (signal == AlreadyPublished <==>
          Acceptable(request) && meets && Reusable(request, request.product.value, a.target.value)
          && Passes(stop, PREPARATION + {LastStep(request)}))
    && (signal == Collided <==>
          Acceptable(request) && meets && !Reusable(request, request.product.value, a.target.value)
          && Passes(stop, PREPARATION))
  }

  /** The rename: the former target is one of the entries a crash may bring back. */
  function Switched(a: Folder, request: Request): Folder
    requires request.product.Some?
  {
    a.(target := Some(Placed(request)), earlier := a.Entries())
  }

  /** What an attempt may leave, by its signal. */
  ghost predicate Attempted(a: Folder, b: Folder, request: Request, signal: Signal) {
    && (|| b.Like(a) || b.Like(AfterFlush(a, request))
        || (&& Acceptable(request) && b.stage.None? && (request.mode.Immutable? ==> a.target.None?)
            && (b.Like(Switched(a, request)) || b.Like(AfterFlush(Switched(a, request), request)))))
    && (signal == Published ==>
          Acceptable(request) && b.stage.None? && b.Like(AfterFlush(Switched(a, request), request)))
    && (signal == AlreadyPublished ==>
          && Acceptable(request) && request.mode.Immutable? && a.target.Some? && b.Like(AfterFlush(a, request))
          && b.stage == Some(Flushed(request.product.value)) && Reusable(request, request.product.value, a.target.value))
    && (signal == Collided ==>
          && Acceptable(request) && request.mode.Immutable? && a.target.Some? && b.target == a.target
          && b.stage == Some(Flushed(request.product.value))
          && !Reusable(request, request.product.value, a.target.value))
  }

  ghost predicate Cleaned(a: Folder, b: Folder, first: Signal, signal: Signal, stop: Option<Stop>) {
    && b.Like(a)
    && (if first == Crashed || first == Collided then b == a && signal == first
        else b.stage.None? && signal == if a.stage.Some? && Reached(StageCleaned, stop) != Going then Reached(StageCleaned, stop) else first)
  }

  // ---------------------------------------------------------------- atomicity

  /** What publish may leave, whatever happens. */
  ghost predicate Publishes(a: Folder, b: Folder, request: Request, stop: Option<Stop>, signal: Signal) {
    exists between, first ::
      && Attempted(Opened(a), between, request, first)
      && Succeeds(a, request, stop, first)
      && Cleaned(between, b, first, signal, stop)
  }

  /** A tree that may be found at the target after a crash, or None if nothing may be there. */
  ghost predicate FoundAfterCrash(folder: Folder, found: Option<Tree>) {
    || (!folder.parent.Sure? && found.None?)
    || exists i :: 0 <= i < |folder.Entries()| && SurvivesAt(folder.Entries()[i], found)
  }

  ghost predicate SurvivesAt(named: Option<Node>, found: Option<Tree>) {
    match named
    case None => found.None?
    case Some(node) => found.Some? && Survives(node, found.value)
  }

  /**
   Whatever stops a publication, a crash afterwards finds at the target either what could have been found
   there before, or what the crash leaves of the candidate, which passed validation.
   */
  lemma CrashFindsFormerOrCandidate(a: Folder, b: Folder, request: Request, stop: Option<Stop>, signal: Signal,
                                    found: Option<Tree>)
    requires Publishes(a, b, request, stop, signal) && FoundAfterCrash(b, found)
    ensures FoundAfterCrash(a, found)
            || (Acceptable(request) && b.target == Some(Placed(request)) && SurvivesAt(b.target, found))
  {
    if found.None? && !b.parent.Sure? {
      assert !a.parent.Sure?;
    } else {
      var i :| 0 <= i < |b.Entries()| && SurvivesAt(b.Entries()[i], found);
      if b.Entries()[i] in a.Entries() {
        var k :| 0 <= k < |a.Entries()| && a.Entries()[k] == b.Entries()[i];
        assert SurvivesAt(a.Entries()[k], found);
      }
    }
  }

  /** Every crash finds what it could have found before, or the whole of the candidate. */
  ghost predicate Atomic(a: Folder, b: Folder, request: Request) {
    forall found :: FoundAfterCrash(b, found)
      ==> FoundAfterCrash(a, found)
          || (Acceptable(request) && found == Some(Content(request.product.value)) && request.valid(found.value))
  }

  /** The platform orders entries, or the candidate has none that is not sure. */
  predicate EntriesAreSafe(request: Request) {
    request.ordersEntries || request.product.None? || SureEntries(request.product.value)
  }

  /**
   Atomicity, whatever stops the publication: of a file always, and of a tree if entries are ordered or
   its directories were flushed by whoever made them.
   */
  lemma PublicationIsAtomic(a: Folder, b: Folder, request: Request, stop: Option<Stop>, signal: Signal)
    requires Publishes(a, b, request, stop, signal) && (Acceptable(request) ==> EntriesAreSafe(request))
    ensures Atomic(a, b, request)
  {
    forall found | FoundAfterCrash(b, found) && !FoundAfterCrash(a, found)
      ensures Acceptable(request) && found == Some(Content(request.product.value)) && request.valid(found.value)
    {
      CrashFindsFormerOrCandidate(a, b, request, stop, signal, found);
      PlacedContent(request);
      hide Publishes, FoundAfterCrash, Survives, Acceptable, Placed;
      LastingSurvivesWhole(Placed(request), found.value);
    }
  }

  lemma PlacedContent(request: Request)
    requires Acceptable(request)
    ensures Content(Placed(request)) == Content(request.product.value)
    ensures request.valid(Content(request.product.value)) && Placed(request).DirNode? == request.kind.AsTree?
    ensures Lasting(Placed(request)) <==> EntriesAreSafe(request)
  {
    FlushingKeepsContent(request.product.value);
    MovingKeepsContent(Flushed(request.product.value), request.ordersEntries);
    MovedLastsExactly(request.product.value, request.ordersEntries);
  }

  /** No entry a crash may bring back is a directory's. */
  predicate NoTreeBefore(a: Folder) {
    forall i :: 0 <= i < |a.Entries()| && a.Entries()[i].Some? ==> !a.Entries()[i].value.DirNode?
  }

  /**
   Once the candidate has its name, where no tree was before, the publication is atomic exactly if entries
   are ordered or those of its directories are sure; files have none.
   */
  lemma PublicationIsAtomicExactly(a: Folder, b: Folder, request: Request, stop: Option<Stop>, signal: Signal)
    requires Publishes(a, b, request, stop, signal) && Acceptable(request)
    requires b.target == Some(Placed(request)) && NoTreeBefore(a)
    ensures Atomic(a, b, request) <==> EntriesAreSafe(request)
  {
    if EntriesAreSafe(request) {
      PublicationIsAtomic(a, b, request, stop, signal);
    } else {
      PlacedContent(request);
      hide Publishes;
      var part := UnflushedMayChange(Placed(request));
      assert b.Entries()[|b.earlier|] == b.target && SurvivesAt(b.target, Some(part));
      assert FoundAfterCrash(b, Some(part));
      TreesAreNew(a, part);
    }
  }

  lemma TreesAreNew(a: Folder, tree: Tree)
    requires NoTreeBefore(a) && tree.DirTree?
    ensures !FoundAfterCrash(a, Some(tree))
  {}

  /** In immutable mode an existing target is never touched. */
  lemma ImmutableTargetsStay(a: Folder, b: Folder, request: Request, stop: Option<Stop>, signal: Signal)
    requires Publishes(a, b, request, stop, signal) && request.mode.Immutable? && a.target.Some?
    ensures b.target == a.target
  {}

  // ---------------------------------------------------------------- outcomes

  /** The candidate is of the kind asked for, valid, made of directories and regular files, and no longer written. */
  ghost predicate IsGoodCandidate(request: Request) {
    && request.materializes && request.product.Some? && request.writersClosed
    && Regular(request.product.value) && request.valid(Content(request.product.value))
    && (request.kind.AsFile? <==> request.product.value.FileNode?)
  }

  /** Nothing goes wrong at any of these steps. */
  predicate Undisturbed(stop: Option<Stop>, steps: set<PublicationStep>) {
    stop.Some? ==> stop.value.step !in steps
  }

  /** The target and the candidate hold the same, links at the target followed, and the target is valid. */
  ghost predicate HoldsTheSame(request: Request, target: Node)
    requires request.product.Some?
  {
    Dereferenced(Content(target)) == Content(request.product.value) && request.valid(Content(target))
  }

  /**
   Exactly when a publication publishes, finds itself published, or collides: always with a good candidate, and by
   whether there is a target that may not be replaced, and whether that holds the same.
   */
  lemma OutcomesExactly(a: Folder, b: Folder, request: Request, stop: Option<Stop>, signal: Signal)
    requires Publishes(a, b, request, stop, signal)
    ensures var prepared := IsGoodCandidate(request)
                            && Undisturbed(stop, {StageCreated, Materialized, ValidatedBefore, FilesFlushed, WritersClosed});
            var kept := request.mode.Immutable? && a.target.Some?;
            var flushed := Undisturbed(stop, {if request.flushesDirectories then ParentFlushed else ParentFlushUnsupported});
            && (signal.Published? <==>
                  prepared && !kept && Undisturbed(stop, {TargetPublished, ValidatedAfter}) && flushed
                  && (a.target.Some? ==> if request.kind.AsFile? then !a.target.value.DirNode?
                                         else a.target.value.DirNode? && a.target.value.entries == []))
            && (signal.AlreadyPublished? <==>
                  prepared && kept && HoldsTheSame(request, a.target.value) && flushed && Undisturbed(stop, {StageCleaned}))
            && (signal.Collided? <==> prepared && kept && !HoldsTheSame(request, a.target.value))
  {
    GoodIsAcceptable(request);
    if IsGoodCandidate(request) && a.target.Some? {
      SameIsReusable(request, a.target.value);
    }
    var between, first :|
      Attempted(Opened(a), between, request, first) && Succeeds(a, request, stop, first) && Cleaned(between, b, first, signal, stop);
    hide IsGoodCandidate, HoldsTheSame, Acceptable, Reusable, Placed;
  }

  lemma GoodIsAcceptable(request: Request)
    ensures IsGoodCandidate(request) <==> Acceptable(request)
  {}

  lemma SameIsReusable(request: Request, target: Node)
    requires request.product.Some? && Regular(request.product.value)
    ensures HoldsTheSame(request, target) <==> Reusable(request, request.product.value, target)
  {
    RegularIsLinkFree(request.product.value);
    EquivalentExactlyWhenEqual(Content(request.product.value), Content(target));
  }

  // ---------------------------------------------------------------- durability

  /** A crash is sure to find a tree at the target. */
  ghost predicate SureOf(folder: Folder, tree: Tree) {
    forall found :: FoundAfterCrash(folder, found) ==> found == Some(tree)
  }

  /** A directory entry for a node that has the tree and can lose nothing of it. */
  predicate Keeps(named: Option<Node>, tree: Tree) {
    named.Some? && Lasting(named.value) && Content(named.value) == tree
  }

  predicate AllKeep(entries: seq<Option<Node>>, tree: Tree) {
    forall i :: 0 <= i < |entries| ==> Keeps(entries[i], tree)
  }

  lemma AllKeepAppended(entries: seq<Option<Node>>, named: Option<Node>, tree: Tree)
    ensures AllKeep(entries + [named], tree) <==> AllKeep(entries, tree) && Keeps(named, tree)
  {
    if AllKeep(entries + [named], tree) {
      assert forall i :: 0 <= i < |entries| ==> entries[i] == (entries + [named])[i];
      assert (entries + [named])[|entries|] == named;
    }
  }

  /**
   A crash surely finds a tree exactly if the directory is sure to be there and every entry it may bring
   back is for that tree and can lose nothing of it.
   */
  lemma SureExactlyIfAllKeep(folder: Folder, tree: Tree)
    ensures SureOf(folder, tree) <==> folder.parent.Sure? && AllKeep(folder.Entries(), tree)
  {
    var entries := folder.Entries();
    if !folder.parent.Sure? {
      assert FoundAfterCrash(folder, None);
    } else if AllKeep(entries, tree) {
      forall found | FoundAfterCrash(folder, found)
        ensures found == Some(tree)
      {
        var i :| 0 <= i < |entries| && SurvivesAt(entries[i], found);
        LastingSurvivesWhole(entries[i].value, found.value);
      }
    } else {
      var i :| 0 <= i < |entries| && !Keeps(entries[i], tree);
      if entries[i].None? {
        assert SurvivesAt(entries[i], None);
        assert FoundAfterCrash(folder, None);
      } else if Content(entries[i].value) != tree {
        ContentMaySurvive(entries[i].value);
        assert SurvivesAt(entries[i], Some(Content(entries[i].value)));
        assert FoundAfterCrash(folder, Some(Content(entries[i].value)));
      } else {
        var changed := UnflushedMayChange(entries[i].value);
        assert SurvivesAt(entries[i], Some(changed));
        assert FoundAfterCrash(folder, Some(changed));
      }
    }
  }

  /** Once publication has returned, the target holds the candidate, links of an older equal target followed. */
  lemma ReturnedPublicationIsInPlace(a: Folder, b: Folder, request: Request, stop: Option<Stop>, signal: Signal)
    requires Publishes(a, b, request, stop, signal) && signal in {Published, AlreadyPublished}
    ensures Acceptable(request) && b.stage.None? && b.target.Some?
    ensures Dereferenced(Content(b.target.value)) == Content(request.product.value)
    ensures request.valid(Content(b.target.value))
    ensures signal == Published ==> b.target == Some(Placed(request)) && Content(b.target.value) == Content(request.product.value)
  {
    var product := request.product.value;
    PlacedContent(request);
    RegularIsLinkFree(product);
    EquivalentExactlyWhenEqual(Content(product), Content(b.target.value));
    LinkFreeIsItself(Content(product));
  }

  /**
   Durability. Once publication has returned, every crash finds what is now at the target exactly if nothing
   of that can be lost, its directory was sure already or is flushed where entries are ordered, and either
   the platform flushes directories or every entry a crash might have brought back before was for the same.
   */
  lemma ReturnedPublicationIsDurableExactly(a: Folder, b: Folder, request: Request, stop: Option<Stop>, signal: Signal)
    requires Publishes(a, b, request, stop, signal) && signal in {Published, AlreadyPublished}
    ensures b.target.Some?
    ensures var tree := Content(b.target.value);
            SureOf(b, tree) <==>
              && Lasting(b.target.value)
              && (a.parent.Sure? || (request.flushesDirectories && request.ordersEntries))
              && (request.flushesDirectories || AllKeep(a.Entries(), tree))
  {
    ReturnedPublicationIsInPlace(a, b, request, stop, signal);
    var tree := Content(b.target.value);
    SureExactlyIfAllKeep(b, tree);
    AllKeepAppended(b.earlier, b.target, tree);
    AllKeepAppended(a.earlier, a.target, tree);
    assert Keeps(b.target, tree) <==> Lasting(b.target.value);
    hide SureOf, Keeps, Lasting, Placed, Survives;
    if signal == Published {
      assert b.Like(AfterFlush(Switched(Opened(a), request), request));
      assert b.parent.Sure? <==> a.parent.Sure? || (request.flushesDirectories && request.ordersEntries);
      assert b.earlier == if request.flushesDirectories then [] else a.Entries();
    } else {
      assert b.Like(AfterFlush(Opened(a), request));
      assert b.parent.Sure? <==> a.parent.Sure? || (request.flushesDirectories && request.ordersEntries);
      assert b.earlier == if request.flushesDirectories then [] else a.earlier;
    }
  }

  /**
   A publication in place of anything but the same lasting tree is durable exactly if the platform flushes
   directories and either orders entries, or the target's directory was sure already and the candidate
   has no entry of its own that is not.
   */
  lemma NewPublicationIsDurableExactly(a: Folder, b: Folder, request: Request, stop: Option<Stop>)
    requires Publishes(a, b, request, stop, Published) && !Keeps(a.target, Content(request.product.value))
    ensures request.product.Some?
    ensures SureOf(b, Content(request.product.value)) <==>
              request.flushesDirectories
              && (request.ordersEntries || (a.parent.Sure? && SureEntries(request.product.value)))
  {
    ReturnedPublicationIsInPlace(a, b, request, stop, Published);
    ReturnedPublicationIsDurableExactly(a, b, request, stop, Published);
    PlacedContent(request);
    hide Publishes;
    assert a.Entries()[|a.earlier|] == a.target;
  }

  /** A request for one file, on a platform that may do as it likes. */
  function FileRequest(flushes: bool, orders: bool): Request {
    Request(AsFile, Immutable, Some(FileNode("x", false)), true, (tree: Tree) => true, true, flushes, orders)
  }

  /** A folder after an undisturbed publication at a target that was not there. */
  function FirstPublished(a: Folder, request: Request): Folder
    requires request.product.Some?
  {
    AfterFlush(Switched(Opened(a), request), request).(stage := None)
  }

  lemma FirstPublishes(a: Folder, request: Request)
    requires Acceptable(request) && a.target.None?
    ensures Publishes(a, FirstPublished(a, request), request, None, Published)
  {
    var b := FirstPublished(a, request);
    assert Attempted(Opened(a), b, request, Published) && Succeeds(a, request, None, Published);
    assert Cleaned(b, b, Published, Published, None);
  }

  /**
   Where directories cannot be flushed, a crash can undo a publication that has returned, even after a
   second one has found it already published.
   */
  lemma AnUnflushedPublicationCanVanish(orders: bool)
    ensures exists a: Folder, b: Folder, c: Folder ::
              && a.parent.Sure?
              && Publishes(a, b, FileRequest(false, orders), None, Published) && FoundAfterCrash(b, None)
              && Publishes(b, c, FileRequest(false, orders), None, AlreadyPublished) && FoundAfterCrash(c, None)
  {
    var request := FileRequest(false, orders);
    var a := Folder(Sure, None, [], None);
    var b := FirstPublished(a, request);
    FirstPublishes(a, request);
    assert Reusable(request, request.product.value, b.target.value);
    var staged := b.(stage := Some(Flushed(request.product.value)));
    assert Attempted(Opened(b), staged, request, AlreadyPublished) && Succeeds(b, request, None, AlreadyPublished);
    assert Cleaned(staged, b, AlreadyPublished, AlreadyPublished, None);
    assert Publishes(b, b, request, None, AlreadyPublished);
    assert b.Entries()[0] == None && SurvivesAt(b.Entries()[0], None);
    assert FoundAfterCrash(b, None);
  }

  /** Where entries are not ordered, a first publication into a new directory can vanish with that directory. */
  lemma AFirstPublicationCanVanish()
    ensures exists a: Folder, b: Folder ::
              a.parent.Absent? && Publishes(a, b, FileRequest(true, false), None, Published) && FoundAfterCrash(b, None)
  {
    var a := Folder(Absent, None, [], None);
    FirstPublishes(a, FileRequest(true, false));
  }

  /** A request for a tree of one file, whose validation asks for it, where entries are not ordered. */
  function TreeRequest(): Request {
    Request(AsTree, Immutable, Some(DirNode([Entry("f", FileNode("x", false))], false)), true,
            (tree: Tree) => tree != DirTree([]), true, true, false)
  }

  lemma TreeRequestParts()
    ensures var request := TreeRequest();
            && Acceptable(request) && request.flushesDirectories && !request.valid(DirTree([]))
            && Placed(request).DirNode? && !Placed(request).sure
  {
    assert |Content(TreeRequest().product.value).entries| == 1;
  }

  lemma FirstPublishedTarget(a: Folder, request: Request)
    requires request.product.Some?
    ensures FirstPublished(a, request).target == Some(Placed(request))
  {}

  lemma TargetIsFound(folder: Folder, tree: Tree)
    requires folder.target.Some? && Survives(folder.target.value, tree)
    ensures FoundAfterCrash(folder, Some(tree))
  {
    assert folder.Entries()[|folder.earlier|] == folder.target;
    assert SurvivesAt(folder.target, Some(tree));
  }

  /** Where entries are not ordered, a crash can leave part of a published tree, which no validation passed. */
  lemma APublishedTreeCanLoseEntries()
    ensures exists a: Folder, b: Folder, request: Request, part: Tree ::
              && a.parent.Sure? && request.flushesDirectories && Publishes(a, b, request, None, Published)
              && FoundAfterCrash(b, Some(part)) && !FoundAfterCrash(a, Some(part)) && !request.valid(part)
  {
    var a, request := Folder(Sure, None, [], None), TreeRequest();
    TreesAreNew(a, DirTree([]));
    hide Publishes, FoundAfterCrash, Survives, Placed, TreeRequest, FirstPublished, Acceptable;
    TreeRequestParts();
    FirstPublishes(a, request);
    FirstPublishedTarget(a, request);
    UnsureMaySurviveEmpty(Placed(request));
    TargetIsFound(FirstPublished(a, request), DirTree([]));
  }

  lemma {:induction false} LinkFreeIsItself(tree: Tree)
    requires LinkFree(tree)
    ensures Dereferenced(tree) == tree
  {
    match tree
    case FileTree(_) =>
    case DirTree(entries) =>
      forall i | 0 <= i < |entries|
        ensures Dereferenced(entries[i].1) == entries[i].1
      {
        LinkFreeIsItself(entries[i].1);
      }
  }

  /** A collision keeps the candidate as evidence beside a target that differs from it or is invalid. */
  lemma CollisionKeepsEvidence(a: Folder, b: Folder, request: Request, stop: Option<Stop>)
    requires Publishes(a, b, request, stop, Collided)
    ensures b.target == a.target && b.target.Some? && b.stage == Some(Flushed(request.product.value))
    ensures Dereferenced(Content(b.target.value)) != Content(request.product.value) || !request.valid(Content(b.target.value))
  {
    RegularIsLinkFree(request.product.value);
    EquivalentExactlyWhenEqual(Content(request.product.value), Content(b.target.value));
  }

  /** Publishing the same candidate again finds it published and changes nothing at the target. */
  lemma RepublishingIsIdempotent(a: Folder, b: Folder, c: Folder, request: Request, again: Signal)
    requires request.mode.Immutable? && Acceptable(request)
    requires Publishes(a, b, request, None, Published) && Publishes(b, c, request, None, again)
    ensures again == AlreadyPublished && c.target == b.target
  {
    var product := request.product.value;
    ReturnedPublicationIsInPlace(a, b, request, None, Published);
    RegularIsLinkFree(product);
    EquivalentExactlyWhenEqual(Content(product), Content(product));
    LinkFreeIsItself(Content(product));
    assert Reusable(request, product, b.target.value);
  }
}
