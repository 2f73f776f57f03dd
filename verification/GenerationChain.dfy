/**
 Selecting the authoritative generation from the sealed generations on disk: the set must be one chain
 of predecessors from its newest member.
 */
module GenerationChain {
  import opened Options

  datatype Envelope = Envelope(id: string, predecessor: Option<string>, index: nat,
                               releaseMin: seq<nat>, releaseMax: seq<nat>)

  datatype Refusal = NoValidGeneration | AmbiguousActivationIndex | IncompatibleGeneration(id: string)
                   | ForkedLineage | BrokenLineage

  /** What selection comes to; a predecessor cycle keeps the walk going for ever. */
  datatype Selection = Selected(candidate: nat) | Refused(refusal: Refusal) | Diverges

  // ---------------------------------------------------------------- releases

  predicate IsRelease(parts: seq<nat>) { |parts| == 3 }

  /** Lexicographic order of major, minor and patch. */
  predicate Earlier(left: seq<nat>, right: seq<nat>)
    requires IsRelease(left) && IsRelease(right)
  {
    left[0] < right[0] || (left[0] == right[0] && (left[1] < right[1] || (left[1] == right[1] && left[2] < right[2])))
  }

  method CompareReleases(left: seq<nat>, right: seq<nat>) returns (sign: int)
    requires IsRelease(left) && IsRelease(right)
    ensures sign < 0 <==> Earlier(left, right)
    ensures sign > 0 <==> Earlier(right, left)
    ensures sign == 0 <==> left == right
  {
    for k := 0 to 3
      invariant left[..k] == right[..k]
    {
      if left[k] != right[k] {
        return left[k] as int - right[k] as int;
      }
      assert left[..k + 1] == left[..k] + [left[k]] && right[..k + 1] == right[..k] + [right[k]];
    }
    assert left == left[..3] && right == right[..3];
    return 0;
  }

  predicate Within(release: seq<nat>, minimum: seq<nat>, maximum: seq<nat>) {
    IsRelease(release) && IsRelease(minimum) && IsRelease(maximum)
    && !Earlier(release, minimum) && !Earlier(maximum, release)
  }

  method ReleaseWithin(release: seq<nat>, minimum: seq<nat>, maximum: seq<nat>) returns (within: bool)
    requires IsRelease(release) && IsRelease(minimum) && IsRelease(maximum)
    ensures within == Within(release, minimum, maximum)
  {
    var low := CompareReleases(release, minimum);
    var high := CompareReleases(release, maximum);
    within := low >= 0 && high <= 0;
  }

  // ---------------------------------------------------------------- lineage

  /** The candidate a map filled in order holds for an identity: the last one. */
  function Lookup(all: seq<Envelope>, id: string): (found: Option<nat>)
    ensures found.Some? ==> found.value < |all| && all[found.value].id == id
    ensures found.None? ==> forall k :: 0 <= k < |all| ==> all[k].id != id
  {
    if all == [] then None
    else if all[|all| - 1].id == id then Some(|all| - 1)
    else Lookup(all[..|all| - 1], id)
  }

  function Next(all: seq<Envelope>, c: nat): (next: Option<nat>)
    requires c < |all|
    ensures next.Some? ==> next.value < |all| && all[c].predecessor == Some(all[next.value].id)
  {
    if all[c].predecessor.None? then None else Lookup(all, all[c].predecessor.value)
  }

  function Fault(all: seq<Envelope>, release: seq<nat>, i: nat): Option<Refusal>
    requires i < |all|
  {
    if exists j :: 0 <= j < i && all[j].index == all[i].index then Some(AmbiguousActivationIndex)
    else if !Within(release, all[i].releaseMin, all[i].releaseMax) then Some(IncompatibleGeneration(all[i].id))
    else if all[i].predecessor.Some? && Next(all, i).None? then Some(BrokenLineage)
    else None
  }

  function FirstFault(all: seq<Envelope>, release: seq<nat>, i: nat): Option<Refusal>
    requires i <= |all|
    decreases |all| - i
  {
    if i == |all| then None
    else if Fault(all, release, i).Some? then Fault(all, release, i)
    else FirstFault(all, release, i + 1)
  }

  function ChildCount(all: seq<Envelope>, id: string): nat {
    if all == [] then 0
    else ChildCount(all[..|all| - 1], id) + if all[|all| - 1].predecessor == Some(id) then 1 else 0
  }

  ghost predicate Forked(all: seq<Envelope>) {
    exists id :: ChildCount(all, id) > 1
  }

  function RootCount(all: seq<Envelope>): nat {
    if all == [] then 0
    else RootCount(all[..|all| - 1]) + if all[|all| - 1].predecessor.None? then 1 else 0
  }

  /** The first candidate of greatest index. */
  function Newest(all: seq<Envelope>): (c: nat)
    requires all != []
    ensures c < |all| && forall k :: 0 <= k < |all| ==> all[k].index <= all[c].index
  {
    if |all| == 1 then 0
    else
      var c := Newest(all[..|all| - 1]);
      if all[|all| - 1].index > all[c].index then |all| - 1 else c
  }

  /** The candidate the walk from c has reached after k links. */
  function Visit(all: seq<Envelope>, c: nat, k: nat): (at: Option<nat>)
    requires c < |all|
    ensures at.Some? ==> at.value < |all|
  {
    if k == 0 then Some(c)
    else
      var before := Visit(all, c, k - 1);
      if before.None? then None else Next(all, before.value)
  }

  ghost function Select(all: seq<Envelope>, release: seq<nat>): Selection {
    if all == [] then Refused(NoValidGeneration)
    else if FirstFault(all, release, 0).Some? then Refused(FirstFault(all, release, 0).value)
    else if Forked(all) then Refused(ForkedLineage)
    else if RootCount(all) != 1 then Refused(BrokenLineage)
    else
      var newest := Newest(all);
      if Visit(all, newest, |all|).Some? then Diverges
      else if Visit(all, newest, |all| - 1).None? then Refused(BrokenLineage)
      else Selected(newest)
  }

  // ---------------------------------------------------------------- the algorithm

  method IndexById(all: seq<Envelope>) returns (byId: map<string, nat>)
    ensures forall id :: (id in byId <==> Lookup(all, id).Some?) && (id in byId ==> Lookup(all, id) == Some(byId[id]))
  {
    byId := map[];
    for i := 0 to |all|
      invariant forall id :: id in byId <==> Lookup(all[..i], id).Some?
      invariant forall id :: id in byId ==> Lookup(all[..i], id) == Some(byId[id])
    {
      assert all[..i + 1][..i] == all[..i];
      byId := byId[all[i].id := i];
    }
    assert all[..|all|] == all;
  }

  /** The loop over the candidates: unique indexes, compatible releases, known predecessors, child counts. */
  method InspectCandidates(all: seq<Envelope>, byId: map<string, nat>, release: seq<nat>)
    returns (fault: Option<Refusal>, childCounts: map<string, nat>)
    requires forall id :: (id in byId <==> Lookup(all, id).Some?) && (id in byId ==> Lookup(all, id) == Some(byId[id]))
    requires IsRelease(release)
    requires forall i :: 0 <= i < |all| ==> IsRelease(all[i].releaseMin) && IsRelease(all[i].releaseMax)
    ensures fault == FirstFault(all, release, 0)
    ensures fault.None? ==> forall id :: (if id in childCounts then childCounts[id] else 0) == ChildCount(all, id)
  {
    var indexes := {};
    childCounts := map[];
    for i := 0 to |all|
      invariant indexes == set j | 0 <= j < i :: all[j].index
      invariant FirstFault(all, release, 0) == FirstFault(all, release, i)
      invariant forall id :: (if id in childCounts then childCounts[id] else 0) == ChildCount(all[..i], id)
    {
      assert all[..i + 1][..i] == all[..i];
      var envelope := all[i];
      if envelope.index in indexes {
        return Some(AmbiguousActivationIndex), childCounts;
      }
      indexes := indexes + {envelope.index};
      var compatible := ReleaseWithin(release, envelope.releaseMin, envelope.releaseMax);
      if !compatible {
        return Some(IncompatibleGeneration(envelope.id)), childCounts;
      }
      if envelope.predecessor.Some? {
        var id := envelope.predecessor.value;
        if id !in byId {
          return Some(BrokenLineage), childCounts;
        }
        childCounts := childCounts[id := (if id in childCounts then childCounts[id] else 0) + 1];
      }
    }
    assert all[..|all|] == all;
    fault := None;
  }

  method SelectGeneration(all: seq<Envelope>, release: seq<nat>) returns (selection: Selection)
    requires IsRelease(release)
    requires forall i :: 0 <= i < |all| ==> IsRelease(all[i].releaseMin) && IsRelease(all[i].releaseMax)
    ensures selection == Select(all, release)
  {
    if all == [] {
      return Refused(NoValidGeneration);
    }
    var byId := IndexById(all);
    var fault, childCounts := InspectCandidates(all, byId, release);
    if fault.Some? {
      return Refused(fault.value);
    }
    if exists id :: id in childCounts && childCounts[id] > 1 {
      return Refused(ForkedLineage);
    }
    if RootCount(all) != 1 {
      return Refused(BrokenLineage);
    }
    var selected := 0;
    for i := 0 to |all|
      invariant selected < |all| && (i == 0 ==> selected == 0) && (i > 0 ==> selected == Newest(all[..i]))
    {
      assert all[..i + 1][..i] == all[..i];
      if all[i].index > all[selected].index {
        selected := i;
      }
    }
    assert all[..|all|] == all;
    selection := WalkPredecessors(all, byId, selected);
  }

  /** The predecessor walk. Once it has passed every candidate it has closed a cycle and cannot end. */
  method WalkPredecessors(all: seq<Envelope>, byId: map<string, nat>, selected: nat) returns (selection: Selection)
    requires selected < |all|
    requires forall id :: (id in byId <==> Lookup(all, id).Some?) && (id in byId ==> Lookup(all, id) == Some(byId[id]))
    ensures selection == if Visit(all, selected, |all|).Some? then Diverges
                         else if Visit(all, selected, |all| - 1).None? then Refused(BrokenLineage)
                         else Selected(selected)
  {
    var visited := 0;
    var cursor := Some(selected);
    while cursor.Some?
      invariant visited <= |all| && cursor == Visit(all, selected, visited)
      invariant cursor.None? ==> visited > 0 && Visit(all, selected, visited - 1).Some?
      decreases |all| - visited, cursor.Some?
    {
      if visited == |all| {
        return Diverges;
      }
      visited := visited + 1;
      var predecessor := all[cursor.value].predecessor;
      if predecessor.Some? && predecessor.value in byId {
        cursor := Some(byId[predecessor.value]);
      } else {
        cursor := None;
      }
    }
    VisitsEnd(all, selected, visited, |all|);
    if visited != |all| {
      VisitsEnd(all, selected, visited, |all| - 1);
      return Refused(BrokenLineage);
    }
    selection := Selected(selected);
  }

  // ---------------------------------------------------------------- walks

  /** A walk that has ended stays ended; one that goes on has gone on. */
  lemma {:induction false} VisitsEnd(all: seq<Envelope>, c: nat, j: nat, k: nat)
    requires c < |all| && j <= k
    ensures Visit(all, c, j).None? ==> Visit(all, c, k).None?
    ensures Visit(all, c, k).Some? ==> Visit(all, c, j).Some?
    decreases k - j
  {
    if j < k {
      VisitsEnd(all, c, j, k - 1);
    }
  }

  lemma {:induction false} VisitsCompose(all: seq<Envelope>, c: nat, j: nat, k: nat)
    requires c < |all| && Visit(all, c, j).Some?
    ensures Visit(all, c, j + k) == Visit(all, Visit(all, c, j).value, k)
    decreases k
  {
    if k > 0 {
      VisitsCompose(all, c, j, k - 1);
      assert j + k - 1 == j + (k - 1);
    }
  }

  /** The candidates visited in the first k steps. */
  ghost function VisitedBy(all: seq<Envelope>, c: nat, k: nat): set<nat>
    requires c < |all|
  {
    set j | 0 <= j < k && Visit(all, c, j).Some? :: Visit(all, c, j).value
  }

  ghost function Range(n: nat): (r: set<nat>)
    ensures forall i: nat :: i in r <==> i < n
  {
    if n == 0 then {} else Range(n - 1) + {n - 1}
  }

  lemma {:induction false} RangeSize(n: nat)
    ensures |Range(n)| == n
  {
    if n > 0 {
      RangeSize(n - 1);
    }
  }

  lemma SubsetSize(a: set<nat>, b: set<nat>)
    requires a <= b
    ensures |a| <= |b| && (|a| == |b| ==> a == b)
  {
    assert b == a + (b - a) && a !! (b - a);
  }

  /** While no candidate is met twice, the visited set grows by one each step. */
  lemma {:induction false} DistinctVisitsCount(all: seq<Envelope>, c: nat, k: nat)
    requires c < |all|
    requires forall j :: 0 <= j < k ==> Visit(all, c, j).Some?
    requires forall i, j :: 0 <= i < j < k ==> Visit(all, c, i) != Visit(all, c, j)
    ensures |VisitedBy(all, c, k)| == k
  {
    if k == 0 {
      assert VisitedBy(all, c, 0) == {};
    } else {
      DistinctVisitsCount(all, c, k - 1);
      var last := Visit(all, c, k - 1).value;
      assert VisitedBy(all, c, k) == VisitedBy(all, c, k - 1) + {last};
      assert last !in VisitedBy(all, c, k - 1);
    }
  }

  lemma VisitedAreCandidates(all: seq<Envelope>, c: nat, k: nat)
    requires c < |all|
    ensures VisitedBy(all, c, k) <= Range(|all|)
  {}

  /** A walk of more steps than candidates meets one twice. */
  lemma LongWalkRepeats(all: seq<Envelope>, c: nat) returns (i: nat, j: nat)
    requires c < |all| && Visit(all, c, |all|).Some?
    ensures i < j <= |all| && Visit(all, c, i).Some? && Visit(all, c, i) == Visit(all, c, j)
  {
    var n := |all|;
    forall k | 0 <= k <= n
      ensures Visit(all, c, k).Some?
    {
      VisitsEnd(all, c, k, n);
    }
    if forall a, b :: 0 <= a < b < n + 1 ==> Visit(all, c, a) != Visit(all, c, b) {
      TooManyDistinctVisits(all, c);
    }
    i, j :| 0 <= i < j < n + 1 && Visit(all, c, i) == Visit(all, c, j);
  }

  /** No walk visits more distinct candidates than there are. */
  lemma TooManyDistinctVisits(all: seq<Envelope>, c: nat)
    requires c < |all|
    requires forall j :: 0 <= j < |all| + 1 ==> Visit(all, c, j).Some?
    ensures exists a, b :: 0 <= a < b < |all| + 1 && Visit(all, c, a) == Visit(all, c, b)
  {
    hide VisitedBy, Range, Visit;
    if !exists a, b :: 0 <= a < b < |all| + 1 && Visit(all, c, a) == Visit(all, c, b) {
      DistinctVisitsCount(all, c, |all| + 1);
      VisitedAreCandidates(all, c, |all| + 1);
      RangeSize(|all|);
      SubsetSize(VisitedBy(all, c, |all| + 1), Range(|all|));
    }
  }

  /** A walk that meets a candidate twice goes on for ever. */
  lemma {:induction false} RepeatingWalkGoesOn(all: seq<Envelope>, c: nat, i: nat, j: nat, k: nat)
    requires c < |all| && i < j && Visit(all, c, i).Some? && Visit(all, c, i) == Visit(all, c, j)
    ensures Visit(all, c, k).Some?
    decreases k
  {
    if k <= j {
      VisitsEnd(all, c, k, j);
    } else {
      RepeatingWalkGoesOn(all, c, i, j, k - (j - i));
      var d := Visit(all, c, i).value;
      VisitsCompose(all, c, i, k - j);
      VisitsCompose(all, c, j, k - j);
      assert i + (k - j) == k - (j - i) && j + (k - j) == k;
    }
  }

  /** The walk of a selection that diverges never ends. */
  lemma DivergingWalkNeverEnds(all: seq<Envelope>, release: seq<nat>, k: nat)
    requires Select(all, release).Diverges?
    ensures Visit(all, Newest(all), k).Some?
  {
    var i, j := LongWalkRepeats(all, Newest(all));
    RepeatingWalkGoesOn(all, Newest(all), i, j, k);
  }

  // ---------------------------------------------------------------- why it refuses

  /** What is wrong with candidate i, in the order the loop looks. */
  ghost predicate IsFault(all: seq<Envelope>, release: seq<nat>, i: nat, refusal: Refusal) {
    && i < |all|
    && var ambiguous := exists j :: 0 <= j < i && all[j].index == all[i].index;
       var admits := Within(release, all[i].releaseMin, all[i].releaseMax);
       var orphaned := all[i].predecessor.Some? && forall k :: 0 <= k < |all| ==> all[k].id != all[i].predecessor.value;
       match refusal
       case AmbiguousActivationIndex => ambiguous
       case IncompatibleGeneration(id) => !ambiguous && !admits && id == all[i].id
       case BrokenLineage => !ambiguous && admits && orphaned
       case _ => false
  }

  ghost predicate Faultless(all: seq<Envelope>, release: seq<nat>, i: nat) {
    forall refusal :: !IsFault(all, release, i, refusal)
  }

  lemma FaultIsOne(all: seq<Envelope>, release: seq<nat>, i: nat)
    requires i < |all|
    ensures match Fault(all, release, i) case Some(refusal) => IsFault(all, release, i, refusal) case None => Faultless(all, release, i)
  {
    hide Within;
  }

  lemma {:induction false} FirstFaultIsFirst(all: seq<Envelope>, release: seq<nat>, i: nat) returns (k: nat)
    requires i < |all| && FirstFault(all, release, i).Some?
    ensures i <= k < |all| && IsFault(all, release, k, FirstFault(all, release, i).value)
    ensures forall j: nat :: i <= j < k ==> Faultless(all, release, j)
    decreases |all| - i
  {
    FaultIsOne(all, release, i);
    hide IsFault, Faultless, Fault;
    if Fault(all, release, i).Some? {
      k := i;
    } else {
      k := FirstFaultIsFirst(all, release, i + 1);
    }
  }

  /**
   Every refusal names its cause: there is no candidate; or it is what is wrong with the first candidate that has
   something wrong with it; or two candidates share a predecessor; or the lineage has no single root, or the walk
   from the newest does not meet every candidate.
   */
  lemma RefusalsNameTheirCause(all: seq<Envelope>, release: seq<nat>) returns (k: nat)
    requires Select(all, release).Refused?
    ensures var refusal := Select(all, release).refusal;
            var shared := exists i, j :: 0 <= i < j < |all| && all[i].predecessor.Some? && all[i].predecessor == all[j].predecessor;
            if all == [] then refusal == NoValidGeneration
            else if k < |all| then IsFault(all, release, k, refusal) && forall j: nat :: j < k ==> Faultless(all, release, j)
            else
              && (forall j: nat :: j < |all| ==> Faultless(all, release, j))
              && refusal == if shared then ForkedLineage else BrokenLineage
  {
    k := |all|;
    if all != [] {
      ForkedExactly(all);
      NoFaultMeans(all, release, 0);
      if FirstFault(all, release, 0).Some? {
        k := FirstFaultIsFirst(all, release, 0);
      } else {
        forall j: nat | j < |all|
          ensures Faultless(all, release, j)
        {
          FaultIsOne(all, release, j);
        }
      }
      hide IsFault, Faultless, FirstFault, Fault, Forked, Visit;
    }
  }

  // ---------------------------------------------------------------- what is selected

  /** All candidates in one line of predecessors, from the one of greatest index to the only root. */
  ghost predicate Chain(all: seq<Envelope>, path: seq<nat>) {
    && |path| == |all| > 0
    && (forall k :: 0 <= k < |path| ==> path[k] < |all|)
    && (forall j, k :: 0 <= j < k < |path| ==> path[j] != path[k])
    && (forall k :: 0 <= k < |all| ==> all[k].index <= all[path[0]].index)
    && (forall k :: 0 <= k < |path| - 1 ==> Next(all, path[k]) == Some(path[k + 1]))
    && all[path[|path| - 1]].predecessor.None?
  }

  /** Indexes are unique and every candidate admits this release. */
  ghost predicate Eligible(all: seq<Envelope>, release: seq<nat>) {
    && (forall i, j :: 0 <= i < j < |all| ==> all[i].index != all[j].index)
    && (forall i :: 0 <= i < |all| ==> Within(release, all[i].releaseMin, all[i].releaseMax))
  }

  lemma {:induction false} NoFaultMeans(all: seq<Envelope>, release: seq<nat>, i: nat)
    requires i <= |all|
    ensures FirstFault(all, release, i).None? <==> forall k :: i <= k < |all| ==> Fault(all, release, k).None?
    decreases |all| - i
  {
    if i < |all| {
      NoFaultMeans(all, release, i + 1);
    }
  }

  lemma NoFaultIsEligible(all: seq<Envelope>, release: seq<nat>)
    ensures FirstFault(all, release, 0).None?
            <==> Eligible(all, release) && forall c :: 0 <= c < |all| && all[c].predecessor.Some? ==> Next(all, c).Some?
  {
    NoFaultMeans(all, release, 0);
    forall c | 0 <= c < |all|
      ensures Fault(all, release, c).None?
              <==> (forall j :: 0 <= j < c ==> all[j].index != all[c].index)
                   && Within(release, all[c].releaseMin, all[c].releaseMax)
                   && (all[c].predecessor.Some? ==> Next(all, c).Some?)
    {
    }
    hide Fault, Within, Next;
  }

  lemma {:induction false} TwoChildrenCount(all: seq<Envelope>, i: nat, j: nat, id: string)
    requires i < j < |all| && all[i].predecessor == all[j].predecessor == Some(id)
    ensures ChildCount(all, id) > 1
  {
    var n := |all| - 1;
    if j < n {
      TwoChildrenCount(all[..n], i, j, id);
    } else {
      OneChildCounts(all[..n], i, id);
    }
  }

  lemma {:induction false} OneChildCounts(all: seq<Envelope>, i: nat, id: string)
    requires i < |all| && all[i].predecessor == Some(id)
    ensures ChildCount(all, id) > 0
  {
    if i < |all| - 1 {
      OneChildCounts(all[..|all| - 1], i, id);
    }
  }

  lemma {:induction false} CountedChild(all: seq<Envelope>, id: string) returns (i: nat)
    requires ChildCount(all, id) > 0
    ensures i < |all| && all[i].predecessor == Some(id)
  {
    var n := |all| - 1;
    if all[n].predecessor == Some(id) {
      i := n;
    } else {
      i := CountedChild(all[..n], id);
    }
  }

  lemma {:induction false} CountedChildren(all: seq<Envelope>, id: string) returns (i: nat, j: nat)
    requires ChildCount(all, id) > 1
    ensures i < j < |all| && all[i].predecessor == all[j].predecessor == Some(id)
  {
    var n := |all| - 1;
    if all[n].predecessor == Some(id) {
      i := CountedChild(all[..n], id);
      j := n;
    } else {
      i, j := CountedChildren(all[..n], id);
    }
  }

  /** No fork means that no two candidates name the same predecessor. */
  lemma ForkedExactly(all: seq<Envelope>)
    ensures Forked(all) <==> exists i, j :: 0 <= i < j < |all| && all[i].predecessor.Some? && all[i].predecessor == all[j].predecessor
  {
    if Forked(all) {
      var id :| ChildCount(all, id) > 1;
      var i, j := CountedChildren(all, id);
    }
    forall i, j | 0 <= i < j < |all| && all[i].predecessor.Some? && all[i].predecessor == all[j].predecessor
      ensures Forked(all)
    {
      TwoChildrenCount(all, i, j, all[i].predecessor.value);
    }
  }

  /** The candidates without a predecessor. */
  ghost function Roots(all: seq<Envelope>): set<nat> {
    set c: nat | c in Range(|all|) && all[c].predecessor.None?
  }

  lemma {:induction false} RootCountIsSize(all: seq<Envelope>)
    ensures RootCount(all) == |Roots(all)|
  {
    if all == [] {
      assert Roots(all) == {};
    } else {
      var n := |all| - 1;
      RootCountIsSize(all[..n]);
      if all[n].predecessor.None? {
        assert Roots(all) == Roots(all[..n]) + {n};
      } else {
        assert Roots(all) == Roots(all[..n]);
      }
    }
  }

  lemma OnlyRoot(all: seq<Envelope>, root: nat)
    requires root < |all| && all[root].predecessor.None?
    requires forall c :: 0 <= c < |all| && all[c].predecessor.None? ==> c == root
    ensures RootCount(all) == 1
  {
    RootCountIsSize(all);
    assert Roots(all) == {root};
  }

  // ---------------------------------------------------------------- a chain is selected

  lemma {:induction false} ChainIsWalk(all: seq<Envelope>, path: seq<nat>, k: nat)
    requires Chain(all, path) && k < |path|
    ensures Visit(all, path[0], k) == Some(path[k])
    decreases k
  {
    if k > 0 {
      ChainIsWalk(all, path, k - 1);
    }
  }

  /** A path of as many distinct candidates as there are passes through each. */
  lemma PathCovers(all: seq<Envelope>, path: seq<nat>, c: nat) returns (k: nat)
    requires Chain(all, path) && c < |all|
    ensures k < |path| && path[k] == c
  {
    var on := set i | 0 <= i < |path| :: path[i];
    PathSize(path);
    RangeSize(|all|);
    SubsetSize(on, Range(|all|));
    assert c in on;
    k :| 0 <= k < |path| && path[k] == c;
  }

  lemma {:induction false} PathSize(path: seq<nat>)
    requires forall j, k :: 0 <= j < k < |path| ==> path[j] != path[k]
    ensures |set i | 0 <= i < |path| :: path[i]| == |path|
  {
    if path != [] {
      var n := |path| - 1;
      PathSize(path[..n]);
      assert (set i | 0 <= i < |path| :: path[i]) == (set i | 0 <= i < n :: path[..n][i]) + {path[n]};
    }
  }

  /** Within a chain exactly the last candidate has no predecessor. */
  lemma ChainLink(all: seq<Envelope>, path: seq<nat>, k: nat)
    requires Chain(all, path) && k < |path|
    ensures if k < |path| - 1 then Next(all, path[k]) == Some(path[k + 1]) && all[path[k]].predecessor.Some?
            else all[path[k]].predecessor.None?
  {}

  lemma ChainPassesChecks(all: seq<Envelope>, release: seq<nat>, path: seq<nat>)
    requires Chain(all, path) && Eligible(all, release)
    ensures FirstFault(all, release, 0).None? && !Forked(all) && RootCount(all) == 1 && Newest(all) == path[0]
  {
    hide Eligible, Within;
    forall c | 0 <= c < |all| && all[c].predecessor.Some?
      ensures Next(all, c).Some?
    {
      var k := PathCovers(all, path, c);
      ChainLink(all, path, k);
    }
    NoFaultIsEligible(all, release);
    forall i, j | 0 <= i < j < |all| && all[i].predecessor.Some?
      ensures all[i].predecessor != all[j].predecessor
    {
      var a := PathCovers(all, path, i);
      var b := PathCovers(all, path, j);
      ChainLink(all, path, a);
      ChainLink(all, path, b);
    }
    ForkedExactly(all);
    forall c | 0 <= c < |all| && all[c].predecessor.None?
      ensures c == path[|path| - 1]
    {
      var k := PathCovers(all, path, c);
      ChainLink(all, path, k);
    }
    OnlyRoot(all, path[|path| - 1]);
    NewestIsOnly(all, release, path[0]);
  }

  lemma NewestIsOnly(all: seq<Envelope>, release: seq<nat>, c: nat)
    requires c < |all| && Eligible(all, release) && forall k :: 0 <= k < |all| ==> all[k].index <= all[c].index
    ensures Newest(all) == c
  {
    assert all[Newest(all)].index == all[c].index;
  }

  lemma ChainIsSelected(all: seq<Envelope>, release: seq<nat>, path: seq<nat>)
    requires Chain(all, path) && Eligible(all, release)
    ensures Select(all, release) == Selected(path[0])
  {
    ChainPassesChecks(all, release, path);
    var n := |all|;
    ChainIsWalk(all, path, n - 1);
    assert Visit(all, path[0], n).None?;
  }

  /** The walk of a selected generation, as a path. */
  lemma SelectedIsChain(all: seq<Envelope>, release: seq<nat>) returns (path: seq<nat>)
    requires Select(all, release).Selected?
    ensures Chain(all, path) && Eligible(all, release) && path[0] == Select(all, release).candidate
  {
    NoFaultIsEligible(all, release);
    var n, newest := |all|, Newest(all);
    hide FirstFault, Eligible, Forked, RootCount;
    path := WalkAsPath(all, newest);
    LastHasNoPredecessor(all, newest, n);
  }

  /** A walk that ends after as many candidates as there are meets each once. */
  lemma WalkAsPath(all: seq<Envelope>, c: nat) returns (path: seq<nat>)
    requires c < |all| && Visit(all, c, |all| - 1).Some? && Visit(all, c, |all|).None?
    ensures |path| == |all| && path[0] == c
    ensures forall k :: 0 <= k < |path| ==> path[k] < |all| && Visit(all, c, k) == Some(path[k])
    ensures forall k :: 0 <= k < |path| - 1 ==> Next(all, path[k]) == Some(path[k + 1])
    ensures forall j, k :: 0 <= j < k < |path| ==> path[j] != path[k]
  {
    var n := |all|;
    forall k | 0 <= k < n
      ensures Visit(all, c, k).Some?
    {
      VisitsEnd(all, c, k, n - 1);
    }
    path := seq(n, k requires 0 <= k < n => Visit(all, c, k).value);
    forall k | 0 <= k < n - 1
      ensures Next(all, path[k]) == Some(path[k + 1])
    {
      assert Visit(all, c, k + 1).Some?;
    }
    forall j, k | 0 <= j < k < n
      ensures path[j] != path[k]
    {
      EndingWalkDiffers(all, c, j, k, n);
    }
  }

  lemma EndingWalkDiffers(all: seq<Envelope>, c: nat, j: nat, k: nat, n: nat)
    requires c < |all| && j < k && Visit(all, c, j).Some? && Visit(all, c, n).None?
    ensures Visit(all, c, j) != Visit(all, c, k)
  {
    if Visit(all, c, j) == Visit(all, c, k) {
      RepeatingWalkGoesOn(all, c, j, k, n);
    }
  }

  lemma LastHasNoPredecessor(all: seq<Envelope>, c: nat, n: nat)
    requires c < |all| && n > 0 && Visit(all, c, n).None? && Visit(all, c, n - 1).Some?
    requires forall d :: 0 <= d < |all| && all[d].predecessor.Some? ==> Next(all, d).Some?
    ensures all[Visit(all, c, n - 1).value].predecessor.None?
  {}

  /**
   A generation is selected exactly when the eligible candidates form one chain from the greatest index
   to the only root; it is the head of that chain, and the walk has then visited each candidate once.
   */
  lemma SelectionIsExactlyAChain(all: seq<Envelope>, release: seq<nat>, c: nat)
    ensures Select(all, release) == Selected(c)
            <==> Eligible(all, release) && exists path :: Chain(all, path) && path[0] == c
  {
    if Select(all, release) == Selected(c) {
      var path := SelectedIsChain(all, release);
    }
    forall path | Chain(all, path) && path[0] == c && Eligible(all, release)
      ensures Select(all, release) == Selected(c)
    {
      ChainIsSelected(all, release, path);
    }
  }

  // ---------------------------------------------------------------- links that descend

  /** Every predecessor link goes to a smaller activation index. */
  ghost predicate Descending(all: seq<Envelope>) {
    forall c :: 0 <= c < |all| && Next(all, c).Some? ==> all[Next(all, c).value].index < all[c].index
  }

  /** The checks before the walk. */
  ghost predicate PassesChecks(all: seq<Envelope>, release: seq<nat>) {
    all != [] && FirstFault(all, release, 0).None? && !Forked(all) && RootCount(all) == 1
  }

  /** Two candidates never link to the same one. */
  ghost predicate LinksDiffer(all: seq<Envelope>) {
    forall c, d :: 0 <= c < |all| && 0 <= d < |all| && Next(all, c).Some? && Next(all, c) == Next(all, d) ==> c == d
  }

  lemma UnforkedLinkDiffers(all: seq<Envelope>, c: nat, d: nat)
    requires !Forked(all) && c < d < |all| && Next(all, c).Some?
    ensures Next(all, c) != Next(all, d)
  {
    ForkedExactly(all);
  }

  lemma UnforkedLinksDiffer(all: seq<Envelope>)
    requires !Forked(all)
    ensures LinksDiffer(all)
  {
    hide Forked, Next;
    forall c, d | 0 <= c < d < |all| && Next(all, c).Some?
      ensures Next(all, c) != Next(all, d)
    {
      UnforkedLinkDiffers(all, c, d);
    }
  }

  /** The candidates that some candidate of a set links to. */
  ghost function LinkedFrom(all: seq<Envelope>, from: set<nat>): set<nat>
    requires forall c :: c in from ==> c < |all| && Next(all, c).Some?
  {
    set c | c in from :: Next(all, c).value
  }

  lemma {:induction false} LinkedFromSize(all: seq<Envelope>, from: set<nat>)
    requires LinksDiffer(all) && forall c :: c in from ==> c < |all| && Next(all, c).Some?
    ensures |LinkedFrom(all, from)| == |from|
    decreases |from|
  {
    if from == {} {
      assert LinkedFrom(all, from) == {};
    } else {
      var c :| c in from;
      LinkedFromSize(all, from - {c});
      assert LinkedFrom(all, from) == LinkedFrom(all, from - {c}) + {Next(all, c).value};
      assert Next(all, c).value !in LinkedFrom(all, from - {c});
    }
  }

  lemma LinksMissNewest(all: seq<Envelope>, from: set<nat>)
    requires all != [] && Descending(all) && forall c :: c in from ==> c < |all| && Next(all, c).Some?
    ensures LinkedFrom(all, from) <= Range(|all|) - {Newest(all)}
  {
    hide Next, Newest, Range;
    forall c | c in from
      ensures Next(all, c).value != Newest(all)
    {
      assert all[Next(all, c).value].index < all[c].index <= all[Newest(all)].index;
    }
  }

  /** With one root and unforked links, all but one candidate are linked to; here, all but the newest. */
  lemma AllButNewestAreLinked(all: seq<Envelope>, c: nat) returns (d: nat)
    requires all != [] && LinksDiffer(all) && Descending(all) && RootCount(all) == 1 && c < |all| && c != Newest(all)
    requires forall d :: 0 <= d < |all| && all[d].predecessor.Some? ==> Next(all, d).Some?
    ensures d < |all| && Next(all, d) == Some(c)
  {
    hide Next, Newest, RootCount, Range, LinkedFrom, LinksDiffer, Descending;
    var everyone, roots := Range(|all|), Roots(all);
    var linking := everyone - roots;
    var others := everyone - {Newest(all)};
    RangeSize(|all|);
    RootCountIsSize(all);
    assert everyone == linking + roots && everyone == others + {Newest(all)};
    var linked := LinkedFrom(all, linking);
    LinkedFromSize(all, linking);
    LinksMissNewest(all, linking);
    SubsetSize(linked, others);
    assert c in linked;
    d := LinkedTo(all, linking, c);
  }

  lemma LinkedTo(all: seq<Envelope>, from: set<nat>, c: nat) returns (d: nat)
    requires forall d :: d in from ==> d < |all| && Next(all, d).Some?
    requires c in LinkedFrom(all, from)
    ensures d < |all| && Next(all, d) == Some(c)
  {
    d :| d in from && Next(all, d).value == c;
  }

  lemma LinkedByAnother(all: seq<Envelope>, release: seq<nat>, c: nat) returns (d: nat)
    requires PassesChecks(all, release) && Descending(all) && c < |all| && c != Newest(all)
    ensures d < |all| && Next(all, d) == Some(c) && all[c].index < all[d].index
  {
    NoFaultIsEligible(all, release);
    UnforkedLinksDiffer(all);
    hide Next, Newest, RootCount, LinksDiffer, FirstFault, Forked, Eligible;
    d := AllButNewestAreLinked(all, c);
  }

  /** Every candidate lies on the walk from the newest. */
  lemma {:induction false} NewestReaches(all: seq<Envelope>, release: seq<nat>, c: nat) returns (k: nat)
    requires PassesChecks(all, release) && Descending(all) && c < |all|
    ensures Visit(all, Newest(all), k) == Some(c)
    decreases all[Newest(all)].index - all[c].index
  {
    hide Next, Newest, RootCount, FirstFault, Forked, Descending;
    if c == Newest(all) {
      k := 0;
    } else {
      var d := LinkedByAnother(all, release, c);
      var before := NewestReaches(all, release, d);
      k := before + 1;
    }
  }

  /** Along descending links a walk never meets a candidate twice. */
  lemma {:induction false} DescendingWalkDescends(all: seq<Envelope>, c: nat, j: nat, k: nat)
    requires Descending(all) && c < |all| && j < k && Visit(all, c, k).Some?
    ensures Visit(all, c, j).Some? && all[Visit(all, c, k).value].index < all[Visit(all, c, j).value].index
    decreases k
  {
    VisitsEnd(all, c, j, k);
    VisitsEnd(all, c, k - 1, k);
    if j < k - 1 {
      DescendingWalkDescends(all, c, j, k - 1);
    }
  }

  lemma DescendingWalkEnds(all: seq<Envelope>, c: nat)
    requires Descending(all) && c < |all|
    ensures Visit(all, c, |all|).None?
  {
    if Visit(all, c, |all|).Some? {
      var i, j := LongWalkRepeats(all, c);
      DescendingWalkDescends(all, c, i, j);
    }
  }

  lemma WalkIsLong(all: seq<Envelope>, release: seq<nat>)
    requires PassesChecks(all, release) && Descending(all)
    ensures Visit(all, Newest(all), |all| - 1).Some?
  {
    var n := |all|;
    assert n > 0;
    hide Newest, Visit, Range, PassesChecks, Descending, VisitedBy;
    if Visit(all, Newest(all), n - 1).None? {
      AllAreVisited(all, release);
      VisitedByIsSmall(all, Newest(all), n - 1);
      RangeSize(n);
      SubsetSize(Range(n), VisitedBy(all, Newest(all), n - 1));
    }
  }

  lemma AllAreVisited(all: seq<Envelope>, release: seq<nat>)
    requires PassesChecks(all, release) && Descending(all) && all != [] && Visit(all, Newest(all), |all| - 1).None?
    ensures Range(|all|) <= VisitedBy(all, Newest(all), |all| - 1)
  {
    hide Newest, Visit, PassesChecks, Descending, VisitedBy;
    forall c | c in Range(|all|)
      ensures c in VisitedBy(all, Newest(all), |all| - 1)
    {
      ReachedEarly(all, release, c);
    }
  }

  lemma ReachedEarly(all: seq<Envelope>, release: seq<nat>, c: nat)
    requires PassesChecks(all, release) && Descending(all) && c < |all| && Visit(all, Newest(all), |all| - 1).None?
    ensures c in VisitedBy(all, Newest(all), |all| - 1)
  {
    hide Newest, Visit, PassesChecks, Descending, VisitedBy, Next, Range, FirstFault, RootCount, Forked;
    var k := NewestReaches(all, release, c);
    if k >= |all| - 1 {
      VisitsEnd(all, Newest(all), |all| - 1, k);
    } else {
      VisitIsMember(all, Newest(all), k, |all| - 1);
    }
  }

  lemma VisitIsMember(all: seq<Envelope>, c: nat, j: nat, k: nat)
    requires c < |all| && j < k && Visit(all, c, j).Some?
    ensures Visit(all, c, j).value in VisitedBy(all, c, k)
  {}

  lemma {:induction false} VisitedByIsSmall(all: seq<Envelope>, c: nat, k: nat)
    requires c < |all|
    ensures |VisitedBy(all, c, k)| <= k
  {
    if k == 0 {
      assert VisitedBy(all, c, 0) == {};
    } else {
      VisitedByIsSmall(all, c, k - 1);
      if Visit(all, c, k - 1).Some? {
        assert VisitedBy(all, c, k) == VisitedBy(all, c, k - 1) + {Visit(all, c, k - 1).value};
      } else {
        assert VisitedBy(all, c, k) == VisitedBy(all, c, k - 1);
      }
    }
  }

  /**
   Chain selection. When every predecessor link goes to a smaller index, the checks before the walk
   already make the candidates one chain: the walk ends, visits each exactly once, and the generation
   of greatest index is selected, so the final count never refuses.
   */
  lemma DescendingLineageNeedsNoCount(all: seq<Envelope>, release: seq<nat>) returns (path: seq<nat>)
    requires PassesChecks(all, release) && Descending(all)
    ensures Select(all, release) == Selected(Newest(all))
    ensures Chain(all, path) && path[0] == Newest(all)
  {
    DescendingWalkEnds(all, Newest(all));
    WalkIsLong(all, release);
    path := SelectedIsChain(all, release);
  }

  // ---------------------------------------------------------------- links that cycle

  /** On unforked links a repeated candidate leads back to where the walk began. */
  lemma {:induction false} RepeatReachesStart(all: seq<Envelope>, c: nat, i: nat, j: nat)
    requires LinksDiffer(all) && c < |all| && i < j && Visit(all, c, i).Some? && Visit(all, c, i) == Visit(all, c, j)
    ensures Visit(all, c, j - i) == Some(c)
    decreases i
  {
    if i > 0 {
      VisitsEnd(all, c, j - 1, j);
      VisitsEnd(all, c, i - 1, i);
      RepeatReachesStart(all, c, i - 1, j - 1);
    }
  }

  /** Selection never ends exactly when the checks pass and the newest candidate descends from itself. */
  lemma DivergesExactlyOnACycle(all: seq<Envelope>, release: seq<nat>)
    ensures Select(all, release).Diverges?
            <==> PassesChecks(all, release) && exists k: nat :: k > 0 && Visit(all, Newest(all), k) == Some(Newest(all))
  {
    if Select(all, release).Diverges? {
      UnforkedLinksDiffer(all);
      var i, j := LongWalkRepeats(all, Newest(all));
      RepeatReachesStart(all, Newest(all), i, j);
      assert j - i > 0 && Visit(all, Newest(all), j - i) == Some(Newest(all));
    }
    forall k: nat | PassesChecks(all, release) && k > 0 && Visit(all, Newest(all), k) == Some(Newest(all))
      ensures Select(all, release).Diverges?
    {
      RepeatingWalkGoesOn(all, Newest(all), 0, k, |all|);
    }
  }

  lemma {:induction false} LookupFinds(all: seq<Envelope>, id: string, k: nat)
    requires k < |all| && all[k].id == id && forall j :: k < j < |all| ==> all[j].id != id
    ensures Lookup(all, id) == Some(k)
  {
    if k < |all| - 1 {
      LookupFinds(all[..|all| - 1], id, k);
    }
  }

  /** Three generations that pass every check and send the walk round for ever. */
  lemma ACyclePassesTheChecks()
    ensures exists all: seq<Envelope> :: Select(all, [1, 0, 0]).Diverges?
  {
    var release := [1, 0, 0];
    var a := Envelope("a", Some("b"), 3, release, release);
    var b := Envelope("b", Some("a"), 2, release, release);
    var r := Envelope("r", None, 1, release, release);
    var all := [a, b, r];
    LookupFinds(all, "b", 1);
    LookupFinds(all, "a", 0);
    NoFaultIsEligible(all, release);
    ForkedExactly(all);
    OnlyRoot(all, 2);
    assert Newest(all) == 0;
    assert Next(all, 0) == Some(1) && Next(all, 1) == Some(0);
    assert FirstFault(all, release, 0).None?;
    assert !Forked(all);
    hide Next, Lookup, FirstFault, Forked;
    assert Visit(all, 0, 0) == Some(0);
    assert Visit(all, 0, 1) == Some(1);
    assert Visit(all, 0, 2) == Some(0);
    assert Visit(all, 0, 3) == Some(1);
    assert Select(all, release).Diverges?;
  }
}
