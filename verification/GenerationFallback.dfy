/**
 Resolving the current Authority generation from whatever sealed trees are on disk, and repairing a
 broken newest one by copying the newest valid generation.
 */
module GenerationFallback {
  import opened Options

  type Name = nat
  type Object = nat
  type Continuity = nat

  /** The greatest activation index that Number.isSafeInteger accepts. */
  const MAX_SAFE: nat := 9007199254740991

  datatype Envelope = Envelope(id: Name, index: nat, predecessor: Option<Name>, continuity: Continuity, objects: set<Object>)

  datatype Warning = Warning(failed: Name, replacement: Name)

  datatype Error = Ambiguous | BrokenLineage | NoValidGeneration | UnsafeFallback
                 | SourceNotSelected | InvalidTransition | TransitionNotSelected

  datatype Resolution = Resolved(selected: Envelope, warning: Option<Warning>) | Threw(error: Error)

  /**
   The directories and the process's own fields. A directory under generations/ whose envelope cannot be
   read, or is still another's, is None. `nextId` is the next random identity; none in use reaches it.
   `unflushed` are the directories whose files nothing has flushed, which a crash of the machine may tear.
   */
  datatype Store = Store(
    generations: map<Name, Option<Envelope>>, objects: set<Object>, selector: Option<Name>,
    warnings: map<Name, Warning>, scans: map<Name, nat>, scanNumber: nat, nextId: nat, unflushed: set<Name>)

  // ---------------------------------------------------------------- reading the directories

  /** isEnvelope, as far as numbers go, and the directory's own name. */
  predicate Readable(name: Name, found: Option<Envelope>) {
    found.Some? && found.value.id == name && 0 < found.value.index <= MAX_SAFE
  }

  predicate IndexesDiffer(generations: map<Name, Option<Envelope>>) {
    forall m, n :: m in generations && n in generations && m != n
                   && generations[m].Some? && generations[n].Some?
      ==> generations[m].value.index != generations[n].value.index
  }

  predicate Unambiguous(generations: map<Name, Option<Envelope>>) {
    (forall n :: n in generations ==> Readable(n, generations[n])) && IndexesDiffer(generations)
  }

  function Envelopes(generations: map<Name, Option<Envelope>>): map<Name, Envelope> {
    map n | n in generations && generations[n].Some? :: generations[n].value
  }

  /** The generations all of whose objects exist. */
  function Complete(all: map<Name, Envelope>, objects: set<Object>): map<Name, Envelope> {
    map n | n in all && all[n].objects <= objects :: all[n]
  }

  /** assertCoherent: predecessors are present and older. */
  predicate Coherent(valid: map<Name, Envelope>) {
    forall n :: n in valid && valid[n].predecessor.Some?
      ==> valid[n].predecessor.value in valid && valid[valid[n].predecessor.value].index < valid[n].index
  }

  predicate IsNewest(all: map<Name, Envelope>, n: Name) {
    n in all && forall m :: m in all ==> all[m].index <= all[n].index
  }

  /** The scan that first proved each generation valid. */
  function Scanned(scans: map<Name, nat>, names: set<Name>, number: nat): map<Name, nat> {
    map n | n in scans.Keys + names :: if n in scans then scans[n] else number
  }

  // ---------------------------------------------------------------- the object

  class AuthorityGenerationStore {
    var generations: map<Name, Option<Envelope>>
    var objects: set<Object>
    var selector: Option<Name>
    var warnings: map<Name, Warning>
    var validationScans: map<Name, nat>
    var scanNumber: nat
    var nextId: nat
    var unflushed: set<Name>

    function State(): Store reads this {
      Store(generations, objects, selector, warnings, validationScans, scanNumber, nextId, unflushed)
    }

    constructor (disk: Store)
      ensures State() == disk.(scans := map[], scanNumber := 0)
    {
      generations, objects, selector, warnings := disk.generations, disk.objects, disk.selector, disk.warnings;
      validationScans, scanNumber, nextId, unflushed := map[], 0, disk.nextId, disk.unflushed;
    }

    method RandomUuid() returns (id: nat)
      modifies this`nextId
      ensures id == old(nextId) && nextId == old(nextId) + 1
    {
      id := nextId;
      nextId := nextId + 1;
    }

    method Enumerate() returns (envelopes: map<Name, Envelope>, ambiguous: bool)
      ensures ambiguous <==> !Unambiguous(generations)
      ensures !ambiguous ==> envelopes == Envelopes(generations)
    {
      hide Unambiguous, Readable;
      envelopes, ambiguous := map[], false;
      var indexes := {};
      var rest := generations.Keys;
      while rest != {}
        invariant rest <= generations.Keys
        invariant ambiguous ==> !Unambiguous(generations)
        invariant envelopes.Keys <= generations.Keys - rest
        invariant !ambiguous ==> envelopes.Keys == generations.Keys - rest
        invariant forall n :: n in envelopes ==> Readable(n, generations[n]) && generations[n] == Some(envelopes[n])
        invariant forall n :: n in envelopes ==> envelopes[n].index in indexes
        invariant forall i :: i in indexes ==> exists n :: n in envelopes && envelopes[n].index == i
        invariant forall m, n :: m in envelopes && n in envelopes && m != n ==> envelopes[m].index != envelopes[n].index
        decreases |rest|
      {
        var name :| name in rest;
        rest := rest - {name};
        var value := generations[name];
        if !Readable(name, value) {
          UnreadableIsAmbiguous(generations, name);
          ambiguous := true;
        } else {
          ReadableIsSome(name, value);
          if value.value.index in indexes {
            ghost var n :| n in envelopes && envelopes[n].index == value.value.index;
            DuplicateIsAmbiguous(generations, n, name);
            ambiguous := true;
          } else {
            indexes := indexes + {value.value.index};
            envelopes := envelopes[name := value.value];
          }
        }
      }
      if !ambiguous {
        ScannedIsUnambiguous(generations, envelopes);
      }
    }

    method ValidGenerations(all: map<Name, Envelope>) returns (valid: map<Name, Envelope>)
      ensures valid == Complete(all, objects)
    {
      valid := map n | n in all && all[n].objects <= objects :: all[n];
    }

    method Newest(all: map<Name, Envelope>) returns (n: Name)
      requires all != map[]
      ensures IsNewest(all, n)
    {
      var rest := all.Keys;
      assert |rest| == |all|;
      n :| n in rest;
      rest := rest - {n};
      while rest != {}
        invariant rest <= all.Keys && n in all
        invariant forall m :: m in all && m !in rest ==> all[m].index <= all[n].index
        decreases |rest|
      {
        var m :| m in rest;
        rest := rest - {m};
        if all[n].index <= all[m].index {
          n := m;
        }
      }
    }

    method CopyForFallback(source: Envelope, index: nat) returns (copy: Envelope)
      modifies this`generations, this`nextId, this`unflushed
      ensures copy == Envelope(old(nextId), index, Some(source.id), old(nextId) + 1, source.objects)
      ensures State() == old(State()).(generations := old(generations)[old(nextId) := Some(copy)], nextId := old(nextId) + 2,
                                       unflushed := old(unflushed) + {old(nextId)})
    {
      var id := RandomUuid();
      generations := generations[id := Some(source)];
      unflushed := unflushed + {id};
      var continuity := RandomUuid();
      copy := source.(id := id, index := index, predecessor := Some(source.id), continuity := continuity);
      generations := generations[id := Some(copy)];
    }

    method Resolve() returns (r: Resolution)
      modifies this
      ensures Resolves(old(State()), State(), r)
    {
      hide Unambiguous, Coherent, ResolvesTo, Complete, Envelopes;
      var number := scanNumber + 1;
      var envelopes, ambiguous := Enumerate();
      if ambiguous {
        return Threw(Ambiguous);
      }
      var valid := ValidGenerations(envelopes);
      if !Coherent(valid) {
        return Threw(BrokenLineage);
      }
      if valid == map[] {
        return Threw(NoValidGeneration);
      }
      r := SelectOrRepair(envelopes, valid, number);
    }

    /** Selects the newest valid generation, or a copy of it when a newer one is incomplete. */
    method SelectOrRepair(envelopes: map<Name, Envelope>, valid: map<Name, Envelope>, number: nat) returns (r: Resolution)
      requires Unambiguous(generations) && envelopes == Envelopes(generations) && valid == Complete(envelopes, objects)
      requires valid != map[] && number == scanNumber + 1
      modifies this
      ensures exists head, n :: ResolvesTo(old(State()), State(), r, head, n)
    {
      ghost var start := State();
      hide Unambiguous, IsNewest, Envelopes, Complete;
      NewestIsNoOlder(envelopes, objects);
      var head := Newest(envelopes);
      var best := Newest(valid);
      NewestAreNamed(generations, objects, head, best);
      var selected, warning := valid[best], None;
      if selected.index < envelopes[head].index {
        var failed := envelopes[head];
        if failed.predecessor != Some(selected.id) {
          assert ResolvesTo(start, State(), Threw(UnsafeFallback), head, best);
          return Threw(UnsafeFallback);
        }
        selected := CopyForFallback(selected, failed.index + 1);
        warning := Some(Warning(failed.id, selected.id));
        warnings := warnings[failed.id := warning.value];
      }
      RecordSelection(valid.Keys, selected.id, number);
      r := Resolved(selected, warning);
      assert ResolvesTo(start, State(), r, head, best);
    }

    /** Remembers which scan first proved each generation valid, and rewrites the selector. */
    method RecordSelection(valid: set<Name>, selected: Name, number: nat)
      modifies this`scanNumber, this`validationScans, this`selector
      ensures scanNumber == number && selector == Some(selected)
      ensures validationScans == Scanned(old(validationScans), valid + {selected}, number)
    {
      scanNumber := number;
      validationScans := (map n | n in valid :: number) + validationScans;
      if selected !in validationScans {
        validationScans := validationScans[selected := number];
      }
      selector := Some(selected);
    }

    /** `publishes` is whether the transition's own materialization and validation succeed. */
    method Activate(source: Name, replaced: Option<set<Object>>, rotate: bool, publishes: bool) returns (r: Resolution)
      modifies this
      ensures exists mid, first ::
                && Resolves(old(State()), mid, first)
                && Activates(mid, first, State(), r, source, replaced, rotate, publishes)
    {
      hide Resolves, Readable;
      var first := Resolve();
      ghost var mid := State();
      if first.Threw? {
        assert Activates(mid, first, State(), first, source, replaced, rotate, publishes);
        return first;
      }
      var basis := first.selected;
      if basis.id != source {
        assert Activates(mid, first, State(), Threw(SourceNotSelected), source, replaced, rotate, publishes);
        return Threw(SourceNotSelected);
      }
      var id := RandomUuid();
      var continuity := basis.continuity;
      if rotate {
        continuity := RandomUuid();
      }
      var envelope := Envelope(id, basis.index + 1, Some(basis.id), continuity,
                               if replaced.Some? then replaced.value else basis.objects);
      if !publishes || !Readable(id, Some(envelope)) {
        assert Activates(mid, first, State(), Threw(InvalidTransition), source, replaced, rotate, publishes);
        return Threw(InvalidTransition);
      }
      generations := generations[id := Some(envelope)];
      ghost var published := State();
      var second := Resolve();
      r := if second.Resolved? && second.selected.id != id then Threw(TransitionNotSelected) else second;
      assert Resolves(published, State(), second);
      assert Activates(mid, first, State(), r, source, replaced, rotate, publishes);
    }

    /** Something outside the store removes an object. */
    method LoseObject(o: Object)
      modifies this`objects
      ensures State() == old(State()).(objects := old(objects) - {o})
    {
      objects := objects - {o};
    }
  }

  lemma NewestIsNoOlder(all: map<Name, Envelope>, objects: set<Object>)
    requires Complete(all, objects) != map[]
    ensures all != map[]
  {
    var n :| n in Complete(all, objects);
    assert n in all;
  }

  lemma NewestAreNamed(generations: map<Name, Option<Envelope>>, objects: set<Object>, head: Name, best: Name)
    requires Unambiguous(generations)
    requires IsNewest(Envelopes(generations), head) && IsNewest(Complete(Envelopes(generations), objects), best)
    ensures var all := Envelopes(generations);
            var valid := Complete(all, objects);
            && head in all && all[head].id == head
            && best in all && best in valid && valid[best].id == best && valid[best].index <= all[head].index
  {}

  lemma UnreadableIsAmbiguous(generations: map<Name, Option<Envelope>>, n: Name)
    requires n in generations && !Readable(n, generations[n])
    ensures !Unambiguous(generations)
  {}

  lemma ReadableIsSome(n: Name, found: Option<Envelope>)
    requires Readable(n, found)
    ensures found.Some? && found.value.id == n && 0 < found.value.index <= MAX_SAFE
  {}

  lemma DuplicateIsAmbiguous(generations: map<Name, Option<Envelope>>, m: Name, n: Name)
    requires m in generations && n in generations && m != n && generations[m].Some? && generations[n].Some?
    requires generations[m].value.index == generations[n].value.index
    ensures !Unambiguous(generations)
  {}

  lemma ScannedIsUnambiguous(generations: map<Name, Option<Envelope>>, envelopes: map<Name, Envelope>)
    requires envelopes.Keys == generations.Keys
    requires forall n :: n in envelopes ==> Readable(n, generations[n]) && generations[n] == Some(envelopes[n])
    requires forall m, n :: m in envelopes && n in envelopes && m != n ==> envelopes[m].index != envelopes[n].index
    ensures Unambiguous(generations) && envelopes == Envelopes(generations)
  {}

  // ---------------------------------------------------------------- what resolving does

  /** The store after a resolution that selected `n`, copying it if the newest generation was incomplete. */
  ghost predicate ResolvesTo(a: Store, b: Store, r: Resolution, head: Name, n: Name) {
    var all := Envelopes(a.generations);
    var valid := Complete(all, a.objects);
    && IsNewest(all, head) && IsNewest(valid, n)
    && if valid[n].index == all[head].index then
         && r == Resolved(valid[n], None)
         && b == a.(selector := Some(n), scanNumber := a.scanNumber + 1,
                    scans := Scanned(a.scans, valid.Keys + {n}, a.scanNumber + 1))
       else if all[head].predecessor != Some(n) then
         r == Threw(UnsafeFallback) && b == a
       else
         var copy := Envelope(a.nextId, all[head].index + 1, Some(n), a.nextId + 1, valid[n].objects);
         var warning := Warning(head, copy.id);
         && r == Resolved(copy, Some(warning))
         && b == a.(generations := a.generations[copy.id := Some(copy)], nextId := a.nextId + 2,
                    unflushed := a.unflushed + {copy.id}, warnings := a.warnings[head := warning], selector := Some(copy.id),
                    scanNumber := a.scanNumber + 1,
                    scans := Scanned(a.scans, valid.Keys + {copy.id}, a.scanNumber + 1))
  }

  ghost predicate Resolves(a: Store, b: Store, r: Resolution) {
    var valid := Complete(Envelopes(a.generations), a.objects);
    if !Unambiguous(a.generations) then r == Threw(Ambiguous) && b == a
    else if !Coherent(valid) then r == Threw(BrokenLineage) && b == a
    else if valid == map[] then r == Threw(NoValidGeneration) && b == a
    else exists head, n :: ResolvesTo(a, b, r, head, n)
  }

  /** The store a transition publishes into: the resolved one with the new generation beside it. */
  ghost predicate Activates(mid: Store, first: Resolution, b: Store, r: Resolution, source: Name,
                            replaced: Option<set<Object>>, rotate: bool, publishes: bool)
  {
    if first.Threw? then r == first && b == mid
    else if first.selected.id != source then r == Threw(SourceNotSelected) && b == mid
    else
      var basis := first.selected;
      var envelope := Envelope(mid.nextId, basis.index + 1, Some(basis.id),
                               if rotate then mid.nextId + 1 else basis.continuity,
                               if replaced.Some? then replaced.value else basis.objects);
      var used := mid.(nextId := mid.nextId + if rotate then 2 else 1);
      if !publishes || !Readable(envelope.id, Some(envelope)) then r == Threw(InvalidTransition) && b == used
      else
        var published := used.(generations := used.generations[envelope.id := Some(envelope)]);
        exists second ::
          && Resolves(published, b, second)
          && r == if second.Resolved? && second.selected.id != envelope.id then Threw(TransitionNotSelected) else second
  }

  // ---------------------------------------------------------------- a resolution is whole and stable

  /** No identity or continuity on disk has reached the next random one. */
  ghost predicate Fresh(a: Store) {
    forall n :: n in a.generations ==>
      n < a.nextId && (a.generations[n].Some? ==> a.generations[n].value.continuity < a.nextId)
  }

  lemma ResolutionParts(a: Store, b: Store, r: Resolution) returns (head: Name, n: Name)
    requires Resolves(a, b, r) && r.Resolved?
    ensures Unambiguous(a.generations) && Coherent(Complete(Envelopes(a.generations), a.objects))
    ensures ResolvesTo(a, b, r, head, n)
  {
    hide ResolvesTo, Unambiguous, Coherent, Complete, Envelopes;
    head, n :| ResolvesTo(a, b, r, head, n);
  }

  /**
   Whenever a resolution returns, the selected generation is on disk with all its objects, its index is
   the greatest there, and the selector names it. If it replaces a failed one, it is a new directory
   whose continuity no generation had before.
   */
  lemma ResolvedIsWhole(a: Store, b: Store, r: Resolution)
    requires Fresh(a) && Resolves(a, b, r) && r.Resolved?
    ensures r.selected.id in b.generations && b.generations[r.selected.id] == Some(r.selected)
    ensures r.selected.objects <= b.objects && b.selector == Some(r.selected.id)
    ensures forall n :: n in b.generations && n != r.selected.id ==> b.generations[n].Some? && b.generations[n].value.index < r.selected.index
    ensures r.warning.Some? ==>
              && r.selected.id !in a.generations
              && r.warning.value.failed in a.generations && r.warning.value.replacement == r.selected.id
              && b.warnings == a.warnings[r.warning.value.failed := r.warning.value]
              && forall n :: n in a.generations && a.generations[n].Some?
                   ==> a.generations[n].value.continuity != r.selected.continuity
  {
    var head, n := ResolutionParts(a, b, r);
    assert head in Envelopes(a.generations) && n in Complete(Envelopes(a.generations), a.objects);
    forall m | m in a.generations
      ensures a.generations[m].Some? && m in Envelopes(a.generations)
    {
      assert Readable(m, a.generations[m]);
    }
    hide Coherent;
  }

  /** After a resolution the disk is unambiguous exactly while the greatest index is a safe integer. */
  lemma ResolvedStaysReadable(a: Store, b: Store, r: Resolution)
    requires Fresh(a) && Resolves(a, b, r) && r.Resolved?
    ensures Unambiguous(b.generations) <==> r.selected.index <= MAX_SAFE
  {
    ResolvedIsWhole(a, b, r);
    var head, n := ResolutionParts(a, b, r);
    assert head in Envelopes(a.generations);
    if r.selected.index <= MAX_SAFE {
      ResolvedIsReadable(a, b, r, head, n);
    } else {
      UnreadableIsAmbiguous(b.generations, r.selected.id);
    }
  }

  lemma ResolvedIsReadable(a: Store, b: Store, r: Resolution, head: Name, n: Name)
    requires Fresh(a) && Unambiguous(a.generations) && ResolvesTo(a, b, r, head, n) && r.Resolved?
    requires r.selected.index <= MAX_SAFE
    requires forall n :: n in b.generations && n != r.selected.id ==> b.generations[n].Some? && b.generations[n].value.index < r.selected.index
    requires r.selected.id in b.generations && b.generations[r.selected.id] == Some(r.selected)
    ensures Unambiguous(b.generations)
  {
    hide Complete, Coherent, Fresh;
    assert forall m :: m in b.generations && m != r.selected.id ==> m in a.generations && b.generations[m] == a.generations[m];
    assert forall m :: m in a.generations ==> Readable(m, a.generations[m]);
  }

  lemma CompleteWithCopy(generations: map<Name, Option<Envelope>>, copy: Envelope, objects: set<Object>)
    requires copy.id !in generations && copy.objects <= objects
    ensures Complete(Envelopes(generations[copy.id := Some(copy)]), objects)
         == Complete(Envelopes(generations), objects)[copy.id := copy]
  {}

  lemma CompleteIsNamed(a: Store, n: Name)
    requires Unambiguous(a.generations) && n in Complete(Envelopes(a.generations), a.objects)
    ensures n in a.generations && a.generations[n] == Some(Complete(Envelopes(a.generations), a.objects)[n])
    ensures Complete(Envelopes(a.generations), a.objects)[n].id == n
    ensures Complete(Envelopes(a.generations), a.objects)[n].objects <= a.objects
  {}

  /** The complete generations after a resolution: those before it, and a copy if one was made. */
  lemma CompleteAfter(a: Store, b: Store, r: Resolution, head: Name, n: Name)
    requires Fresh(a) && Unambiguous(a.generations) && ResolvesTo(a, b, r, head, n) && r.Resolved?
    ensures var before, after := Complete(Envelopes(a.generations), a.objects), Complete(Envelopes(b.generations), b.objects);
            && n in before
            && if r.warning.None? then after == before && r.selected == before[n] && r.selected.id == n
               else after == before[r.selected.id := r.selected] && r.selected.id !in before
                    && r.selected.predecessor == Some(n) && before[n].index < r.selected.index
  {
    assert head in Envelopes(a.generations) && n in Complete(Envelopes(a.generations), a.objects);
    CompleteIsNamed(a, n);
    NewestAreNamed(a.generations, a.objects, head, n);
    if r.warning.Some? {
      assert r.selected.id !in a.generations;
      CompleteWithCopy(a.generations, r.selected, a.objects);
    }
    hide Complete, Envelopes, Unambiguous, IsNewest, Fresh;
  }

  lemma CoherentAfter(a: Store, b: Store, r: Resolution)
    requires Fresh(a) && Resolves(a, b, r) && r.Resolved?
    ensures Coherent(Complete(Envelopes(b.generations), b.objects))
    ensures Complete(Envelopes(b.generations), b.objects) != map[]
  {
    var head, n := ResolutionParts(a, b, r);
    CompleteAfter(a, b, r, head, n);
    hide Unambiguous, Envelopes, Fresh, Resolves, Complete, ResolvesTo;
    hide Coherent;
    var before, after := Complete(Envelopes(a.generations), a.objects), Complete(Envelopes(b.generations), b.objects);
    assert n in after;
    if r.warning.Some? {
      CoherentWithCopy(before, r.selected, n);
    }
  }

  lemma CoherentWithCopy(valid: map<Name, Envelope>, copy: Envelope, n: Name)
    requires Coherent(valid) && n in valid && copy.id !in valid
    requires copy.predecessor == Some(n) && valid[n].index < copy.index
    ensures Coherent(valid[copy.id := copy])
  {}

  /**
   Stability. A second resolution right after a successful one selects the same generation, warns of
   nothing and adds nothing, exactly if the selected index is still a safe integer; beyond that every
   later resolution refuses the disk as ambiguous.
   */
  lemma SecondResolveIsStable(a: Store, b: Store, r: Resolution, c: Store, q: Resolution)
    requires Fresh(a) && Resolves(a, b, r) && r.Resolved? && Resolves(b, c, q)
    ensures q.Resolved? <==> r.selected.index <= MAX_SAFE
    ensures q.Resolved? ==> q == Resolved(r.selected, None) && c == b.(scanNumber := b.scanNumber + 1)
    ensures q.Threw? ==> q == Threw(Ambiguous) && c == b
  {
    ResolvedStaysReadable(a, b, r);
    if r.selected.index <= MAX_SAFE {
      CoherentAfter(a, b, r);
      SelectedIsNewest(a, b, r);
      ScansAreKnown(a, b, r);
      ResolvedIsNamed(a, b, r);
      StableResolution(b, r.selected, c, q);
    }
  }

  lemma ResolvedIsNamed(a: Store, b: Store, r: Resolution)
    requires Fresh(a) && Resolves(a, b, r) && r.Resolved?
    ensures b.selector == Some(r.selected.id)
  {
    ResolvedIsWhole(a, b, r);
  }

  /** A store whose greatest generation is complete, selected and scanned resolves to itself. */
  lemma StableResolution(b: Store, selected: Envelope, c: Store, q: Resolution)
    requires Resolves(b, c, q) && Unambiguous(b.generations) && b.selector == Some(selected.id)
    requires var all := Envelopes(b.generations);
             && selected.id in all && all[selected.id] == selected
             && selected.id in Complete(all, b.objects)
             && (forall n :: n in all && n != selected.id ==> all[n].index < selected.index)
    requires Coherent(Complete(Envelopes(b.generations), b.objects))
    requires Complete(Envelopes(b.generations), b.objects).Keys + {selected.id} <= b.scans.Keys
    ensures q == Resolved(selected, None) && c == b.(scanNumber := b.scanNumber + 1)
  {
    hide Coherent, Unambiguous, Complete, Envelopes, IsNewest;
    var valid := Complete(Envelopes(b.generations), b.objects);
    assert selected.id in valid;
    var head, n :| ResolvesTo(b, c, q, head, n);
    SelectedIsNewestOf(b, selected, head, n);
    assert Scanned(b.scans, valid.Keys + {n}, b.scanNumber + 1) == b.scans;
  }

  /** A complete generation and, at the greatest safe index, one that lacks an object. */
  function AtTheLimit(): Store {
    Store(map[0 := Some(Envelope(0, 1, None, 0, {})), 1 := Some(Envelope(1, MAX_SAFE, Some(0), 0, {7}))],
          {}, None, map[], map[], 0, 2, {})
  }

  /** What resolving makes of it. */
  function BeyondTheLimit(): Store {
    var a := AtTheLimit();
    a.(generations := a.generations[2 := Some(Envelope(2, MAX_SAFE + 1, Some(0), 3, {}))], nextId := 4, unflushed := {2},
       warnings := map[1 := Warning(1, 2)], selector := Some(2), scanNumber := 1, scans := Scanned(map[], {0} + {2}, 1))
  }

  lemma LimitParts()
    ensures var a := AtTheLimit();
            && Envelopes(a.generations) == map[0 := Envelope(0, 1, None, 0, {}), 1 := Envelope(1, MAX_SAFE, Some(0), 0, {7})]
            && Complete(Envelopes(a.generations), a.objects) == map[0 := Envelope(0, 1, None, 0, {})]
  {}

  lemma LimitIsUnambiguous()
    ensures Unambiguous(AtTheLimit().generations) && Ordered(AtTheLimit())
  {}

  /** Selecting or repairing a readable, coherent disk is a resolution of it. */
  lemma RepairResolves(a: Store, b: Store, r: Resolution, head: Name, n: Name)
    requires Unambiguous(a.generations) && ResolvesTo(a, b, r, head, n)
    requires var valid := Complete(Envelopes(a.generations), a.objects); Coherent(valid) && n in valid
    ensures Resolves(a, b, r)
  {
    hide Unambiguous, Coherent, Complete, Envelopes, ResolvesTo;
  }

  lemma LimitResolves()
    ensures var a := AtTheLimit();
            && Coherent(Complete(Envelopes(a.generations), a.objects)) && 0 in Complete(Envelopes(a.generations), a.objects)
            && ResolvesTo(a, BeyondTheLimit(), Resolved(Envelope(2, MAX_SAFE + 1, Some(0), 3, {}), Some(Warning(1, 2))), 1, 0)
  {
    LimitParts();
    hide Envelopes, Complete;
    var valid := Complete(Envelopes(AtTheLimit().generations), AtTheLimit().objects);
    assert valid.Keys == {0};
  }

  /** A fallback from the greatest safe index leaves a disk that no later resolution accepts. */
  lemma AFallbackCanEndResolution()
    ensures exists a, b, r :: Ordered(a) && Resolves(a, b, r) && r.Resolved? && !Unambiguous(b.generations)
  {
    var r := Resolved(Envelope(2, MAX_SAFE + 1, Some(0), 3, {}), Some(Warning(1, 2)));
    LimitIsUnambiguous();
    LimitResolves();
    UnreadableIsAmbiguous(BeyondTheLimit().generations, 2);
    hide Unambiguous, Ordered, Envelopes, Complete, ResolvesTo, AtTheLimit, BeyondTheLimit, Resolves, Coherent;
    RepairResolves(AtTheLimit(), BeyondTheLimit(), r, 1, 0);
  }

  lemma SelectedIsNewest(a: Store, b: Store, r: Resolution)
    requires Fresh(a) && Resolves(a, b, r) && r.Resolved?
    ensures var all := Envelopes(b.generations);
            && IsNewest(all, r.selected.id) && all[r.selected.id] == r.selected
            && r.selected.id in Complete(all, b.objects)
            && forall n :: n in all && n != r.selected.id ==> all[n].index < r.selected.index
  {
    ResolvedIsWhole(a, b, r);
    hide Resolves, Fresh;
  }

  /** When the greatest generation is complete, both searches find it. */
  lemma SelectedIsNewestOf(b: Store, selected: Envelope, head: Name, n: Name)
    requires var all := Envelopes(b.generations);
             && selected.id in all && all[selected.id] == selected && selected.id in Complete(all, b.objects)
             && (forall k :: k in all && k != selected.id ==> all[k].index < selected.index)
             && IsNewest(all, head) && IsNewest(Complete(all, b.objects), n)
    ensures head == n == selected.id && Complete(Envelopes(b.generations), b.objects)[n] == selected
  {}

  /** Every generation complete after a resolution has a scan on record. */
  lemma ScansAreKnown(a: Store, b: Store, r: Resolution)
    requires Fresh(a) && Resolves(a, b, r) && r.Resolved?
    ensures Complete(Envelopes(b.generations), b.objects).Keys + {r.selected.id} <= b.scans.Keys
  {
    var head, n := ResolutionParts(a, b, r);
    CompleteAfter(a, b, r, head, n);
    hide Complete, Envelopes, Fresh, Unambiguous, Coherent;
  }

  // ---------------------------------------------------------------- what a resolution answers

  /** The generation of a directory that can be read as its own. */
  ghost predicate Holds(a: Store, n: Name, e: Envelope) {
    n in a.generations && a.generations[n] == Some(e)
  }

  /** Some directory has no readable generation of its own, an index that is none, or the index of another. */
  ghost predicate IsAmbiguous(a: Store) {
    || (exists n :: n in a.generations && a.generations[n].None?)
    || (exists n, e :: Holds(a, n, e) && (e.id != n || e.index == 0 || e.index > 9007199254740991))
    || (exists m, n, d, e :: m != n && Holds(a, m, d) && Holds(a, n, e) && d.index == e.index)
  }

  /** A generation all of whose objects exist. */
  ghost predicate IsWhole(a: Store, n: Name, e: Envelope) { Holds(a, n, e) && e.objects <= a.objects }

  /** A whole generation names a predecessor that is not whole, or not older. */
  ghost predicate IsIncoherent(a: Store) {
    exists n, e :: IsWhole(a, n, e) && e.predecessor.Some? && !HasElder(a, e)
  }

  ghost predicate HasElder(a: Store, e: Envelope)
    requires e.predecessor.Some?
  {
    exists d :: IsWhole(a, e.predecessor.value, d) && d.index < e.index
  }

  /** The greatest of the generations, and the greatest of the whole ones. */
  ghost predicate IsGreatest(a: Store, e: Envelope) {
    Holds(a, e.id, e) && forall n, d :: Holds(a, n, d) ==> d.index <= e.index
  }

  ghost predicate IsGreatestWhole(a: Store, e: Envelope) {
    IsWhole(a, e.id, e) && forall n, d :: IsWhole(a, n, d) ==> d.index <= e.index
  }

  /** The copy that stands in for a broken generation: the next index, a new identity and a new continuity. */
  ghost predicate StandsIn(a: Store, copy: Envelope, failed: Envelope, source: Envelope) {
    && copy.index == failed.index + 1 && copy.predecessor == Some(source.id) && copy.objects == source.objects
    && copy.id !in a.generations && forall n, e :: Holds(a, n, e) ==> e.continuity != copy.continuity
  }

  /**
   What resolving answers and does: it refuses a disk it cannot read, whose whole generations are incoherent, or
   that has none; it selects the greatest generation if that is whole; and otherwise copies the greatest whole one
   if the greatest descends from it, and refuses if not.
   */
  ghost predicate ResolutionOutcome(a: Store, b: Store, r: Resolution) {
    if IsAmbiguous(a) then r == Threw(Ambiguous) && b == a
    else if IsIncoherent(a) then r == Threw(BrokenLineage) && b == a
    else if forall n, e :: !IsWhole(a, n, e) then r == Threw(NoValidGeneration) && b == a
    else exists head, best :: Selects(a, b, r, head, best)
  }

  ghost predicate Selects(a: Store, b: Store, r: Resolution, head: Envelope, best: Envelope) {
    && IsGreatest(a, head) && IsGreatestWhole(a, best)
    && if best.index == head.index then
         r == Resolved(best, None) && b.generations == a.generations && b.warnings == a.warnings && Records(a, b, best.id)
       else if head.predecessor != Some(best.id) then r == Threw(UnsafeFallback) && b == a
       else
         && r.Resolved? && StandsIn(a, r.selected, head, best)
         && r.warning == Some(Warning(head.id, r.selected.id))
         && b.generations == a.generations[r.selected.id := Some(r.selected)]
         && b.warnings == a.warnings[head.id := Warning(head.id, r.selected.id)]
         && Records(a, b, r.selected.id)
  }

  /** One more scan, the selector rewritten, and every generation found whole known since some scan. */
  ghost predicate Records(a: Store, b: Store, selected: Name) {
    && b.selector == Some(selected) && b.scanNumber == a.scanNumber + 1 && b.objects == a.objects
    && (forall n :: n in b.scans <==> n in a.scans || n == selected || exists e :: IsWhole(a, n, e))
    && forall n :: n in b.scans ==> b.scans[n] == if n in a.scans then a.scans[n] else b.scanNumber
  }

  lemma AmbiguousExactly(a: Store)
    ensures IsAmbiguous(a) <==> !Unambiguous(a.generations)
  {
    if !IsAmbiguous(a) {
      forall n | n in a.generations
        ensures Readable(n, a.generations[n])
      {
        assert Holds(a, n, a.generations[n].value);
      }
      forall m, n | m in a.generations && n in a.generations && m != n && a.generations[m].Some? && a.generations[n].Some?
        ensures a.generations[m].value.index != a.generations[n].value.index
      {
        assert Holds(a, m, a.generations[m].value) && Holds(a, n, a.generations[n].value);
      }
    }
    if Unambiguous(a.generations) {
      forall n, e | Holds(a, n, e)
        ensures Readable(n, Some(e))
      {
      }
    }
  }

  lemma WholeExactly(a: Store)
    ensures forall n, e :: IsWhole(a, n, e) <==>
              n in Complete(Envelopes(a.generations), a.objects) && Complete(Envelopes(a.generations), a.objects)[n] == e
    ensures forall n, e :: Holds(a, n, e) <==> n in Envelopes(a.generations) && Envelopes(a.generations)[n] == e
  {}

  lemma IncoherentExactly(a: Store)
    ensures IsIncoherent(a) <==> !Coherent(Complete(Envelopes(a.generations), a.objects))
  {
    var valid := Complete(Envelopes(a.generations), a.objects);
    WholeExactly(a);
    hide IsWhole, Holds, Complete, Envelopes;
    if !Coherent(valid) {
      var n :| n in valid && valid[n].predecessor.Some?
               && !(valid[n].predecessor.value in valid && valid[valid[n].predecessor.value].index < valid[n].index);
      assert IsWhole(a, n, valid[n]);
    }
    if IsIncoherent(a) {
      var n, e :| IsWhole(a, n, e) && e.predecessor.Some? && !HasElder(a, e);
      if e.predecessor.value in valid {
        assert IsWhole(a, e.predecessor.value, valid[e.predecessor.value]);
      }
      assert n in valid && valid[n] == e;
    }
  }

  lemma NoneWholeExactly(a: Store)
    ensures (forall n, e :: !IsWhole(a, n, e)) <==> Complete(Envelopes(a.generations), a.objects) == map[]
  {
    var valid := Complete(Envelopes(a.generations), a.objects);
    WholeExactly(a);
    hide IsWhole, Holds, Complete, Envelopes;
    if valid != map[] {
      var n :| n in valid;
      assert IsWhole(a, n, valid[n]);
    }
  }

  lemma ScansRecord(a: Store, b: Store, selected: Name)
    requires b.selector == Some(selected) && b.scanNumber == a.scanNumber + 1 && b.objects == a.objects
    requires b.scans == Scanned(a.scans, Complete(Envelopes(a.generations), a.objects).Keys + {selected}, a.scanNumber + 1)
    ensures Records(a, b, selected)
  {
    WholeExactly(a);
    var valid := Complete(Envelopes(a.generations), a.objects);
    forall n | n in valid
      ensures exists e :: IsWhole(a, n, e)
    {
      assert IsWhole(a, n, valid[n]);
    }
    hide IsWhole, Complete, Envelopes;
  }

  lemma GreatestAre(a: Store, head: Name, n: Name)
    requires Unambiguous(a.generations)
    requires IsNewest(Envelopes(a.generations), head) && IsNewest(Complete(Envelopes(a.generations), a.objects), n)
    ensures head in Envelopes(a.generations) && IsGreatest(a, Envelopes(a.generations)[head]) && Envelopes(a.generations)[head].id == head
    ensures n in Complete(Envelopes(a.generations), a.objects) && IsGreatestWhole(a, Complete(Envelopes(a.generations), a.objects)[n])
            && Complete(Envelopes(a.generations), a.objects)[n].id == n
  {
    NewestAreNamed(a.generations, a.objects, head, n);
    WholeExactly(a);
    hide IsWhole, Holds, Complete, Envelopes, Unambiguous;
  }

  lemma FreshStandsIn(a: Store, copy: Envelope, failed: Envelope, source: Envelope)
    requires Fresh(a)
    requires copy == Envelope(a.nextId, failed.index + 1, Some(source.id), a.nextId + 1, source.objects)
    ensures StandsIn(a, copy, failed, source)
  {}

  lemma ResolutionMeets(a: Store, b: Store, r: Resolution)
    requires Fresh(a) && Resolves(a, b, r)
    ensures ResolutionOutcome(a, b, r)
  {
    AmbiguousExactly(a);
    IncoherentExactly(a);
    NoneWholeExactly(a);
    if !IsAmbiguous(a) && !IsIncoherent(a) && !forall n, e :: !IsWhole(a, n, e) {
      hide Unambiguous, Coherent, Complete, Envelopes, IsAmbiguous, IsIncoherent, Fresh, ResolvesTo;
      var head, n :| ResolvesTo(a, b, r, head, n);
      SelectionMeets(a, b, r, head, n);
    } else {
      hide ResolvesTo, IsAmbiguous, IsIncoherent, IsWhole, Unambiguous, Coherent, Complete, Envelopes;
    }
  }

  lemma CopyMeets(a: Store, b: Store, r: Resolution, failed: Envelope, source: Envelope)
    requires Fresh(a) && IsGreatest(a, failed) && IsGreatestWhole(a, source)
    requires source.index != failed.index && failed.predecessor == Some(source.id)
    requires var copy := Envelope(a.nextId, failed.index + 1, Some(source.id), a.nextId + 1, source.objects);
             && r == Resolved(copy, Some(Warning(failed.id, copy.id)))
             && b.generations == a.generations[copy.id := Some(copy)]
             && b.warnings == a.warnings[failed.id := Warning(failed.id, copy.id)] && Records(a, b, copy.id)
    ensures Selects(a, b, r, failed, source)
  {
    FreshStandsIn(a, r.selected, failed, source);
    hide StandsIn, IsGreatest, IsGreatestWhole, Records, Fresh;
  }

  /** The generations a resolution found greatest. */
  ghost predicate Found(a: Store, head: Name, n: Name, failed: Envelope, source: Envelope) {
    && head in Envelopes(a.generations) && failed == Envelopes(a.generations)[head] && failed.id == head
    && n in Complete(Envelopes(a.generations), a.objects) && source == Complete(Envelopes(a.generations), a.objects)[n] && source.id == n
    && IsGreatest(a, failed) && IsGreatestWhole(a, source)
  }

  lemma UncopiedMeets(a: Store, b: Store, r: Resolution, head: Name, n: Name, failed: Envelope, source: Envelope)
    requires ResolvesTo(a, b, r, head, n) && Found(a, head, n, failed, source)
    requires source.index == failed.index || failed.predecessor != Some(n)
    ensures Selects(a, b, r, failed, source)
  {
    hide IsGreatest, IsGreatestWhole, Records, Complete, Envelopes, IsNewest, Scanned;
    if source.index == failed.index {
      ScansRecord(a, b, n);
    }
  }

  lemma CopiedMeets(a: Store, b: Store, r: Resolution, head: Name, n: Name, failed: Envelope, source: Envelope)
    requires Fresh(a) && ResolvesTo(a, b, r, head, n) && Found(a, head, n, failed, source)
    requires source.index != failed.index && failed.predecessor == Some(n)
    ensures Selects(a, b, r, failed, source)
  {
    CopiedParts(a, b, r, head, n);
    CopyRecords(a, b, r, head, n);
    hide ResolvesTo, IsGreatest, IsGreatestWhole, Records, Complete, Envelopes, Selects, Fresh;
    CopyMeets(a, b, r, failed, source);
  }

  lemma CopyRecords(a: Store, b: Store, r: Resolution, head: Name, n: Name)
    requires ResolvesTo(a, b, r, head, n) && r.Resolved? && r.warning.Some?
    ensures Records(a, b, r.selected.id)
  {
    hide Records, Complete, Envelopes, IsNewest, Scanned;
    ScansRecord(a, b, r.selected.id);
  }

  lemma SelectionMeets(a: Store, b: Store, r: Resolution, head: Name, n: Name)
    requires Fresh(a) && Unambiguous(a.generations) && ResolvesTo(a, b, r, head, n)
    ensures exists failed, source :: Selects(a, b, r, failed, source)
  {
    GreatestFound(a, b, r, head, n);
    hide Found, ResolvesTo, Unambiguous, Selects, Complete, Envelopes, Fresh;
    var failed, source :| Found(a, head, n, failed, source);
    if source.index == failed.index || failed.predecessor != Some(n) {
      UncopiedMeets(a, b, r, head, n, failed, source);
    } else {
      CopiedMeets(a, b, r, head, n, failed, source);
    }
  }

  lemma GreatestFound(a: Store, b: Store, r: Resolution, head: Name, n: Name)
    requires Unambiguous(a.generations) && ResolvesTo(a, b, r, head, n)
    ensures exists failed, source :: Found(a, head, n, failed, source)
  {
    GreatestAre(a, head, n);
    hide Unambiguous, IsGreatest, IsGreatestWhole, Complete, Envelopes, IsNewest;
    assert Found(a, head, n, Envelopes(a.generations)[head], Complete(Envelopes(a.generations), a.objects)[n]);
  }

  lemma CopiedParts(a: Store, b: Store, r: Resolution, head: Name, n: Name)
    requires ResolvesTo(a, b, r, head, n) && head in Envelopes(a.generations) && n in Complete(Envelopes(a.generations), a.objects)
    requires Envelopes(a.generations)[head].id == head && Complete(Envelopes(a.generations), a.objects)[n].id == n
    requires var failed, source := Envelopes(a.generations)[head], Complete(Envelopes(a.generations), a.objects)[n];
             source.index != failed.index && failed.predecessor == Some(n)
    ensures var failed, source := Envelopes(a.generations)[head], Complete(Envelopes(a.generations), a.objects)[n];
            var copy := Envelope(a.nextId, failed.index + 1, Some(source.id), a.nextId + 1, source.objects);
            && r == Resolved(copy, Some(Warning(failed.id, copy.id)))
            && b.generations == a.generations[copy.id := Some(copy)]
            && b.warnings == a.warnings[failed.id := Warning(failed.id, copy.id)]
  {
    hide Complete, Envelopes, IsNewest, Scanned;
  }

  // ---------------------------------------------------------------- activation

  /** The generation an activation publishes. */
  function Transition(mid: Store, basis: Envelope, replaced: Option<set<Object>>, rotate: bool): Envelope {
    Envelope(mid.nextId, basis.index + 1, Some(basis.id), if rotate then mid.nextId + 1 else basis.continuity,
             if replaced.Some? then replaced.value else basis.objects)
  }

  function Published(mid: Store, basis: Envelope, replaced: Option<set<Object>>, rotate: bool): Store {
    var envelope := Transition(mid, basis, replaced, rotate);
    mid.(nextId := mid.nextId + (if rotate then 2 else 1),
         generations := mid.generations[envelope.id := Some(envelope)])
  }

  /** The greatest generation after a resolution, with a younger one beside it. */
  lemma PublishedIsReadable(a: Store, mid: Store, first: Resolution, replaced: Option<set<Object>>, rotate: bool)
    requires Fresh(a) && Resolves(a, mid, first) && first.Resolved? && first.selected.index + 1 <= MAX_SAFE
    ensures var envelope := Transition(mid, first.selected, replaced, rotate);
            var published := Published(mid, first.selected, replaced, rotate);
            && Unambiguous(published.generations) && Fresh(published) && envelope.id !in mid.generations
            && IsNewest(Envelopes(published.generations), envelope.id)
            && forall n :: n in Envelopes(published.generations) && n != envelope.id
                 ==> Envelopes(published.generations)[n].index < envelope.index
  {
    hide Unambiguous, Fresh, Envelopes, IsNewest, Resolves;
    ResolvedStaysReadable(a, mid, first);
    ResolvedIsWhole(a, mid, first);
    FreshAfter(a, mid, first);
    var envelope := Transition(mid, first.selected, replaced, rotate);
    NextIdIsFree(mid);
    forall n | n in mid.generations
      ensures mid.generations[n].Some? && mid.generations[n].value.index < envelope.index
    {
    }
    PublishKeepsReadable(mid, envelope);
    PublishKeepsFresh(mid, first.selected, replaced, rotate);
  }

  lemma NextIdIsFree(a: Store)
    requires Fresh(a)
    ensures a.nextId !in a.generations
  {}

  lemma PublishKeepsFresh(mid: Store, basis: Envelope, replaced: Option<set<Object>>, rotate: bool)
    requires Fresh(mid) && basis.id in mid.generations && mid.generations[basis.id] == Some(basis)
    ensures Fresh(Published(mid, basis, replaced, rotate))
  {}

  lemma PublishKeepsReadable(mid: Store, envelope: Envelope)
    requires Unambiguous(mid.generations) && envelope.id !in mid.generations && 0 < envelope.index <= MAX_SAFE
    requires forall n :: n in mid.generations ==> mid.generations[n].Some? && mid.generations[n].value.index < envelope.index
    ensures var generations := mid.generations[envelope.id := Some(envelope)];
            && Unambiguous(generations) && IsNewest(Envelopes(generations), envelope.id)
            && forall n :: n in Envelopes(generations) && n != envelope.id ==> Envelopes(generations)[n].index < envelope.index
  {}

  /** A resolution that returns leaves the directories as they were, or adds its copy. */
  lemma ResolvedDirectories(a: Store, b: Store, r: Resolution)
    requires Resolves(a, b, r) && r.Resolved?
    ensures if r.warning.None? then b.generations == a.generations && b.nextId == a.nextId
            else b.generations == a.generations[a.nextId := Some(r.selected)] && b.nextId == a.nextId + 2
                 && r.selected.continuity == a.nextId + 1
  {
    var head, n := ResolutionParts(a, b, r);
    hide Unambiguous, Coherent, Envelopes, Complete, IsNewest;
  }

  lemma FreshAfter(a: Store, b: Store, r: Resolution)
    requires Fresh(a) && Resolves(a, b, r)
    ensures Fresh(b) && a.nextId <= b.nextId
  {
    if r.Resolved? {
      ResolvedDirectories(a, b, r);
      hide Resolves;
    } else {
      UnrepairedKeepsGenerations(a, b, r);
      hide Resolves;
    }
  }

  /** What was complete before a publication still is; the new generation is too if its objects exist. */
  lemma CompletePublished(a: Store, mid: Store, first: Resolution, replaced: Option<set<Object>>, rotate: bool)
    requires Fresh(a) && Resolves(a, mid, first) && first.Resolved?
    ensures var envelope := Transition(mid, first.selected, replaced, rotate);
            var published := Published(mid, first.selected, replaced, rotate);
            var before := Complete(Envelopes(mid.generations), mid.objects);
            && envelope.id !in before && first.selected.id in before && before[first.selected.id] == first.selected
            && Coherent(before) && published.objects == mid.objects
            && Complete(Envelopes(published.generations), published.objects)
               == if envelope.objects <= mid.objects then before[envelope.id := envelope] else before
  {
    CoherentAfter(a, mid, first);
    SelectedIsNewest(a, mid, first);
    FreshAfter(a, mid, first);
    hide Coherent, Resolves;
    var envelope := Transition(mid, first.selected, replaced, rotate);
    assert envelope.id !in mid.generations;
    CompleteWithNew(mid.generations, envelope, mid.objects);
    hide Complete, Unambiguous, Fresh;
  }

  lemma CompleteWithNew(generations: map<Name, Option<Envelope>>, envelope: Envelope, objects: set<Object>)
    requires envelope.id !in generations
    ensures Complete(Envelopes(generations[envelope.id := Some(envelope)]), objects)
         == if envelope.objects <= objects then Complete(Envelopes(generations), objects)[envelope.id := envelope]
            else Complete(Envelopes(generations), objects)
    ensures envelope.id !in Complete(Envelopes(generations), objects)
  {}

  /** The resolution after a publication selects the new generation if it is whole, else copies its source. */
  lemma ResolutionOfPublished(a: Store, mid: Store, first: Resolution, replaced: Option<set<Object>>, rotate: bool,
                              b: Store, second: Resolution)
    requires Fresh(a) && Resolves(a, mid, first) && first.Resolved? && first.selected.index + 1 <= MAX_SAFE
    requires Resolves(Published(mid, first.selected, replaced, rotate), b, second)
    ensures var envelope := Transition(mid, first.selected, replaced, rotate);
            && second.Resolved?
            && (if envelope.objects <= mid.objects then second == Resolved(envelope, None)
                else second.selected.id != envelope.id && second.selected.predecessor == Some(first.selected.id)
                     && second.selected.objects == first.selected.objects && second.selected.index == envelope.index + 1)
  {
    hide Unambiguous, Complete, Envelopes, Fresh, Coherent, IsNewest, Resolves;
    var envelope := Transition(mid, first.selected, replaced, rotate);
    var published := Published(mid, first.selected, replaced, rotate);
    PublishedIsReadable(a, mid, first, replaced, rotate);
    CompletePublished(a, mid, first, replaced, rotate);
    PublishedIsCoherent(a, mid, first, replaced, rotate);
    var before := Complete(Envelopes(mid.generations), mid.objects);
    forall n | n in before && n != first.selected.id
      ensures before[n].index < first.selected.index
    {
      SelectedIsNewest(a, mid, first);
      ValidBelowSelected(mid, first.selected);
    }
    EnvelopeOf(published, envelope.id);
    PublishedResolution(published, before, first.selected, envelope, b, second);
  }

  lemma PublishedIsCoherent(a: Store, mid: Store, first: Resolution, replaced: Option<set<Object>>, rotate: bool)
    requires Fresh(a) && Resolves(a, mid, first) && first.Resolved?
    ensures var published := Published(mid, first.selected, replaced, rotate);
            Coherent(Complete(Envelopes(published.generations), published.objects))
  {
    hide Unambiguous, Complete, Envelopes, Fresh, Coherent, Resolves;
    CompletePublished(a, mid, first, replaced, rotate);
    var envelope := Transition(mid, first.selected, replaced, rotate);
    if envelope.objects <= mid.objects {
      CoherentWithCopy(Complete(Envelopes(mid.generations), mid.objects), envelope, first.selected.id);
    }
  }

  /** Resolving with a new greatest generation beside the selected one. */
  lemma PublishedResolution(published: Store, before: map<Name, Envelope>, basis: Envelope, envelope: Envelope,
                            b: Store, second: Resolution)
    requires Resolves(published, b, second) && Unambiguous(published.generations)
    requires var all := Envelopes(published.generations);
             && envelope.id in all && all[envelope.id] == envelope
             && (forall n :: n in all && n != envelope.id ==> all[n].index < envelope.index)
             && Coherent(Complete(all, published.objects))
             && Complete(all, published.objects) == if envelope.objects <= published.objects then before[envelope.id := envelope] else before
    requires basis.id in before && before[basis.id] == basis && envelope.id !in before && basis.index < envelope.index
    requires forall n :: n in before && n != basis.id ==> before[n].index < basis.index
    requires envelope.predecessor == Some(basis.id) && envelope.id < published.nextId
    ensures second.Resolved?
    ensures if envelope.objects <= published.objects then second == Resolved(envelope, None)
            else second.selected.id != envelope.id && second.selected.predecessor == Some(basis.id)
                 && second.selected.objects == basis.objects && second.selected.index == envelope.index + 1
  {
    hide Unambiguous, Coherent, Complete, Envelopes;
    var valid := Complete(Envelopes(published.generations), published.objects);
    assert basis.id in valid;
    var head, n :| ResolvesTo(published, b, second, head, n);
    assert head == envelope.id;
    if envelope.objects <= published.objects {
      assert valid[envelope.id].index <= valid[n].index;
    } else {
      assert valid[basis.id].index <= valid[n].index;
    }
  }

  lemma EnvelopeOf(a: Store, n: Name)
    requires n in a.generations && a.generations[n].Some?
    ensures n in Envelopes(a.generations) && Envelopes(a.generations)[n] == a.generations[n].value
  {}

  lemma ValidBelowSelected(b: Store, selected: Envelope)
    requires forall n :: n in Envelopes(b.generations) && n != selected.id ==> Envelopes(b.generations)[n].index < selected.index
    ensures forall n :: n in Complete(Envelopes(b.generations), b.objects) && n != selected.id
              ==> Complete(Envelopes(b.generations), b.objects)[n].index < selected.index
  {}

  /** An activation that publishes ends in a second resolution. */
  lemma ActivationResolves(mid: Store, first: Resolution, b: Store, r: Resolution, source: Name,
                           replaced: Option<set<Object>>, rotate: bool) returns (second: Resolution)
    requires Activates(mid, first, b, r, source, replaced, rotate, true)
    requires first.Resolved? && first.selected.id == source && first.selected.index + 1 <= MAX_SAFE
    ensures Resolves(Published(mid, first.selected, replaced, rotate), b, second)
    ensures r == if second.Resolved? && second.selected.id != mid.nextId then Threw(TransitionNotSelected) else second
  {
    hide Resolves;
    var envelope := Transition(mid, first.selected, replaced, rotate);
    assert Readable(envelope.id, Some(envelope));
    second :| Resolves(Published(mid, first.selected, replaced, rotate), b, second)
              && r == if second.Resolved? && second.selected.id != envelope.id then Threw(TransitionNotSelected) else second;
  }

  /**
   What an activation that succeeds has published: a generation one index above its source, which is its
   predecessor, under a new identity, with the objects asked for or else the source's; its continuity is the
   source's unless it is rotated, and then it is new.
   */
  lemma ActivationMeets(a: Store, mid: Store, first: Resolution, b: Store, r: Resolution, source: Name,
                        replaced: Option<set<Object>>, rotate: bool)
    requires Fresh(a) && Resolves(a, mid, first) && Activates(mid, first, b, r, source, replaced, rotate, true)
    requires first.Resolved? && first.selected.id == source && first.selected.index + 1 <= MAX_SAFE
    ensures var objects := if replaced.Some? then replaced.value else first.selected.objects;
            && (r.Resolved? <==> objects <= mid.objects)
            && (r.Resolved? ==>
                  && r.warning.None? && r.selected.id !in mid.generations
                  && r.selected.index == first.selected.index + 1 && r.selected.predecessor == Some(source)
                  && r.selected.objects == objects
                  && if rotate then forall n, e :: Holds(mid, n, e) ==> e.continuity != r.selected.continuity
                     else r.selected.continuity == first.selected.continuity)
  {
    ActivationNeedsItsObjects(a, mid, first, b, r, source, replaced, rotate);
    FreshAfter(a, mid, first);
    hide Resolves, Activates;
  }

  /**
   Activation. From a resolved source with room for another index, publishing succeeds exactly if every
   object of the new generation exists; then that generation is selected without a warning. Otherwise
   the source is copied beside it, one index further on, and the activation is refused.
   */
  lemma ActivationNeedsItsObjects(a: Store, mid: Store, first: Resolution, b: Store, r: Resolution, source: Name,
                                  replaced: Option<set<Object>>, rotate: bool)
    requires Fresh(a) && Resolves(a, mid, first) && Activates(mid, first, b, r, source, replaced, rotate, true)
    requires first.Resolved? && first.selected.id == source && first.selected.index + 1 <= MAX_SAFE
    ensures var envelope := Transition(mid, first.selected, replaced, rotate);
            && (r.Resolved? <==> envelope.objects <= mid.objects)
            && (r.Resolved? ==> r == Resolved(envelope, None))
            && (r.Threw? ==> r == Threw(TransitionNotSelected))
  {
    hide Resolves, Fresh;
    var second := ActivationResolves(mid, first, b, r, source, replaced, rotate);
    hide Activates, Published;
    ResolutionOfPublished(a, mid, first, replaced, rotate, b, second);
  }

  // ---------------------------------------------------------------- runs

  /** Directories are named for their generations, indexes differ, and links to present generations descend. */
  ghost predicate Ordered(a: Store) {
    && Fresh(a)
    && IndexesDiffer(a.generations)
    && forall n :: n in a.generations && a.generations[n].Some? ==>
         var e := a.generations[n].value;
         && e.id == n
         && (e.predecessor.Some? ==>
               && e.predecessor.value < a.nextId
               && (e.predecessor.value in a.generations && a.generations[e.predecessor.value].Some?
                   ==> a.generations[e.predecessor.value].value.index < e.index))
  }

  // ---------------------------------------------------------------- crashes

  /** The process's own fields are lost with it. */
  function Restarted(a: Store): Store { a.(scans := map[], scanNumber := 0) }

  /** Resolving finds generation `n` to copy in place of the incomplete newest one. */
  ghost predicate DecidesToCopy(a: Store, head: Name, n: Name) {
    var all := Envelopes(a.generations);
    var valid := Complete(all, a.objects);
    && Unambiguous(a.generations) && Coherent(valid)
    && IsNewest(all, head) && IsNewest(valid, n)
    && valid[n].index != all[head].index && all[head].predecessor == Some(n)
  }

  /** The store once resolving has made the copy and recorded it. */
  function Repaired(a: Store, head: Envelope, source: Envelope): Store {
    var copy := Envelope(a.nextId, head.index + 1, Some(source.id), a.nextId + 1, source.objects);
    a.(generations := a.generations[copy.id := Some(copy)], nextId := a.nextId + 2, unflushed := a.unflushed + {copy.id},
       warnings := a.warnings[head.id := Warning(head.id, copy.id)], selector := Some(copy.id),
       scanNumber := a.scanNumber + 1,
       scans := Scanned(a.scans, Complete(Envelopes(a.generations), a.objects).Keys + {copy.id}, a.scanNumber + 1))
  }

  /**
   A death of the process inside the copy leaves a directory that is not yet a generation's own; after it, the
   whole copy, with or without its warning.
   */
  ghost predicate CrashesCopying(a: Store, b: Store, head: Envelope, source: Envelope, finished: bool, warned: bool) {
    && head.id in Envelopes(a.generations) && Envelopes(a.generations)[head.id] == head
    && source.id in Envelopes(a.generations) && Envelopes(a.generations)[source.id] == source
    && DecidesToCopy(a, head.id, source.id)
    && if finished then
         b == Restarted(Repaired(a, head, source)).(
           selector := a.selector, warnings := if warned then Repaired(a, head, source).warnings else a.warnings)
       else
         b == Restarted(a).(generations := a.generations[a.nextId := None], nextId := a.nextId + 2,
                            unflushed := a.unflushed + {a.nextId})
  }

  /** A death of the process before the rename leaves the staged directory beside the generations; after it, the new one. */
  ghost predicate CrashesActivating(mid: Store, first: Resolution, b: Store, replaced: Option<set<Object>>, rotate: bool,
                                    finished: bool)
  {
    && first.Resolved? && first.selected.index + 1 <= MAX_SAFE
    && var published := Published(mid, first.selected, replaced, rotate);
       if finished then b == Restarted(published)
       else b == Restarted(mid).(generations := mid.generations[published.nextId := None], nextId := published.nextId + 1)
  }

  /**
   A crash of the machine, at any time: what was not flushed may be torn, and what is left has reached the disk.
   A torn envelope cannot be read. The directories' own entries are taken as sure.
   */
  ghost predicate Tears(a: Store, b: Store, torn: set<Name>) {
    && torn <= a.unflushed * a.generations.Keys
    && b == Restarted(a).(generations := map n | n in a.generations :: if n in torn then None else a.generations[n],
                          unflushed := {})
  }

  ghost predicate CrashStep(a: Store, b: Store) {
    || (exists torn :: Tears(a, b, torn))
    || (exists head, source, finished, warned :: CrashesCopying(a, b, head, source, finished, warned))
    || (exists mid, first, replaced, rotate, finished ::
          Resolves(a, mid, first) && CrashesActivating(mid, first, b, replaced, rotate, finished))
  }

  lemma RepairedResolves(a: Store, head: Envelope, source: Envelope) returns (r: Resolution)
    requires head.id in Envelopes(a.generations) && Envelopes(a.generations)[head.id] == head
    requires source.id in Envelopes(a.generations) && Envelopes(a.generations)[source.id] == source
    requires DecidesToCopy(a, head.id, source.id)
    ensures Resolves(a, Repaired(a, head, source), r) && r.Resolved? && r.warning.Some?
    ensures r.selected == Envelope(a.nextId, head.index + 1, Some(source.id), a.nextId + 1, source.objects)
  {
    var b := Repaired(a, head, source);
    var copy := b.generations[a.nextId].value;
    r := Resolved(copy, Some(Warning(head.id, copy.id)));
    hide Unambiguous, Coherent, Envelopes;
    var valid := Complete(Envelopes(a.generations), a.objects);
    assert valid[source.id] == source;
    assert ResolvesTo(a, b, r, head.id, source.id);
    hide ResolvesTo, Complete, IsNewest, Repaired;
    RepairResolves(a, b, r, head.id, source.id);
  }

  lemma UnfinishedIsAmbiguous(a: Store, b: Store, name: Name)
    requires b.generations == a.generations[name := None]
    ensures !Unambiguous(b.generations)
  {
    UnreadableIsAmbiguous(b.generations, name);
  }

  /** A crash of the machine leaves a readable disk exactly if it was readable and nothing was torn. */
  lemma TearingIsReadableExactly(a: Store, b: Store, torn: set<Name>)
    requires Tears(a, b, torn)
    ensures Unambiguous(b.generations) <==> Unambiguous(a.generations) && torn == {}
  {
    if torn != {} {
      var n :| n in torn;
      assert b.generations[n] == None;
      UnreadableIsAmbiguous(b.generations, n);
    } else {
      assert b.generations == a.generations;
    }
  }

  /**
   A crash while copying leaves a readable disk exactly if the copy was whole, its index is a safe integer
   and nothing was torn, be it the death of the process or, with `torn`, of the machine.
   */
  lemma CopyCrashIsReadableExactly(a: Store, b: Store, head: Envelope, source: Envelope, finished: bool, warned: bool,
                                   c: Store, torn: set<Name>)
    requires Fresh(a) && CrashesCopying(a, b, head, source, finished, warned) && Tears(b, c, torn)
    ensures Unambiguous(b.generations) <==> finished && head.index + 1 <= MAX_SAFE
    ensures Unambiguous(c.generations) <==> finished && head.index + 1 <= MAX_SAFE && torn == {}
  {
    TearingIsReadableExactly(b, c, torn);
    if finished {
      var r := RepairedResolves(a, head, source);
      ResolvedStaysReadable(a, Repaired(a, head, source), r);
    } else {
      UnfinishedIsAmbiguous(a, b, a.nextId);
    }
  }

  /** Some crash of the machine ends resolution. */
  ghost predicate CanEndByTearing(b: Store) {
    exists c: Store, torn :: Tears(b, c, torn) && !Unambiguous(c.generations)
  }

  /**
   A resolution that has returned can be undone for good: if all was flushed before and its index is a safe
   integer, a later crash of the machine can end resolution exactly if it made a fallback, whose copy
   nothing flushes.
   */
  lemma AFallbackCanBeTornExactly(a: Store, b: Store, r: Resolution)
    requires Fresh(a) && a.unflushed == {} && Resolves(a, b, r) && r.Resolved? && r.selected.index <= MAX_SAFE
    ensures CanEndByTearing(b) <==> r.warning.Some?
  {
    ResolvedStaysReadable(a, b, r);
    ResolvedIsWhole(a, b, r);
    FallbackIsUnflushed(a, b, r);
    hide Resolves, Unambiguous, Fresh;
    if r.warning.Some? {
      var torn := {r.selected.id};
      var c := Restarted(b).(generations := map n | n in b.generations :: if n in torn then None else b.generations[n],
                             unflushed := {});
      assert Tears(b, c, torn);
      TearingIsReadableExactly(b, c, torn);
    } else {
      forall c: Store, torn | Tears(b, c, torn)
        ensures Unambiguous(c.generations)
      {
        TearingIsReadableExactly(b, c, torn);
      }
    }
  }

  lemma FallbackIsUnflushed(a: Store, b: Store, r: Resolution)
    requires Resolves(a, b, r) && r.Resolved?
    ensures b.unflushed == a.unflushed + if r.warning.Some? then {r.selected.id} else {}
  {
    var head, n := ResolutionParts(a, b, r);
    hide Unambiguous, Coherent, Complete, Envelopes, IsNewest;
  }

  /** A crash while activating leaves a readable disk exactly if the new generation had its own name. */
  lemma ActivationCrashIsReadableExactly(a: Store, mid: Store, first: Resolution, b: Store,
                                         replaced: Option<set<Object>>, rotate: bool, finished: bool)
    requires Fresh(a) && Resolves(a, mid, first) && CrashesActivating(mid, first, b, replaced, rotate, finished)
    ensures Unambiguous(b.generations) <==> finished
  {
    hide Unambiguous, Fresh, Resolves;
    if finished {
      PublishedIsReadable(a, mid, first, replaced, rotate);
    } else {
      UnfinishedIsAmbiguous(mid, b, Published(mid, first.selected, replaced, rotate).nextId);
    }
  }

  /** The greatest generation, when it is whole, is selected without a warning. */
  lemma GreatestIsSelected(b: Store, selected: Envelope, c: Store, q: Resolution)
    requires Resolves(b, c, q) && Unambiguous(b.generations)
    requires var all := Envelopes(b.generations);
             && selected.id in all && all[selected.id] == selected
             && selected.id in Complete(all, b.objects)
             && (forall n :: n in all && n != selected.id ==> all[n].index < selected.index)
    requires Coherent(Complete(Envelopes(b.generations), b.objects))
    ensures q == Resolved(selected, None) && c.warnings == b.warnings
  {
    hide Coherent, Unambiguous, Complete, Envelopes, IsNewest;
    var valid := Complete(Envelopes(b.generations), b.objects);
    assert selected.id in valid;
    var head, n :| ResolvesTo(b, c, q, head, n);
    SelectedIsNewestOf(b, selected, head, n);
  }

  /**
   A crash after a whole copy loses its warning unless that was already written: the next resolution
   selects the copy like any other generation.
   */
  lemma CopyCrashLosesItsWarningExactly(a: Store, b: Store, head: Envelope, source: Envelope, warned: bool,
                                        c: Store, q: Resolution)
    requires Fresh(a) && CrashesCopying(a, b, head, source, true, warned) && head.index + 1 <= MAX_SAFE
    requires Resolves(b, c, q)
    ensures q.Resolved? && q.warning.None? && q.selected.predecessor == Some(source.id)
    ensures c.warnings == if warned then a.warnings[head.id := Warning(head.id, q.selected.id)] else a.warnings
  {
    var repaired := Repaired(a, head, source);
    var r := RepairedResolves(a, head, source);
    hide Resolves, DecidesToCopy, Unambiguous, Complete, Envelopes, Fresh, Coherent;
    ResolvedStaysReadable(a, repaired, r);
    CoherentAfter(a, repaired, r);
    SelectedIsNewest(a, repaired, r);
    assert b.generations == repaired.generations && b.objects == repaired.objects;
    GreatestIsSelected(b, r.selected, c, q);
  }

  // ---------------------------------------------------------------- runs, with crashes

  /**
   What a run may do between two states: resolve, activate, crash in either or at any time, start again, gain
   or lose objects, or have the system write out what was not flushed.
   */
  ghost predicate StoreStep(a: Store, b: Store) {
    || CrashStep(a, b)
    || (exists r :: Resolves(a, b, r))
    || (exists mid, first, r, source, replaced, rotate, publishes ::
          Resolves(a, mid, first) && Activates(mid, first, b, r, source, replaced, rotate, publishes))
    || b == a.(objects := b.objects)
    || b == Restarted(a)
    || (b == a.(unflushed := b.unflushed) && b.unflushed <= a.unflushed)
  }

  /** A directory that cannot be read as a generation of its own. */
  predicate Broken(generations: map<Name, Option<Envelope>>) {
    exists n :: n in generations && generations[n].None?
  }

  /**
   Generations stay as they were or are torn, and while none is broken new ones are added, each with a greater
   index than all before it.
   */
  ghost predicate Grows(a: Store, b: Store) {
    && a.nextId <= b.nextId
    && (forall n :: n in a.generations ==>
          n in b.generations && (b.generations[n] == a.generations[n] || b.generations[n].None?))
    && (Broken(a.generations) ==> b.generations.Keys == a.generations.Keys)
    && forall m, n :: m in a.generations && a.generations[m].Some?
                      && n in b.generations && b.generations[n].Some? && n !in a.generations
         ==> a.generations[m].value.index < b.generations[n].value.index
  }

  lemma GrowthComposes(a: Store, b: Store, c: Store)
    requires Grows(a, b) && Grows(b, c)
    ensures Grows(a, c)
  {
    forall m, n | m in a.generations && a.generations[m].Some?
                  && n in c.generations && c.generations[n].Some? && n !in a.generations
      ensures a.generations[m].value.index < c.generations[n].value.index
    {
      assert m in b.generations && (b.generations[m].None? ==> Broken(b.generations));
      if n in b.generations {
        assert c.generations[n] == b.generations[n];
      }
    }
    if Broken(a.generations) {
      var n :| n in a.generations && a.generations[n].None?;
      assert b.generations[n].None?;
    }
  }

  /** Adding one generation above all others, after one of them, keeps the order. */
  lemma AddedKeepsOrder(a: Store, b: Store, e: Envelope)
    requires Ordered(a) && b.generations == a.generations[e.id := Some(e)]
    requires a.nextId <= e.id < b.nextId && e.continuity < b.nextId && a.nextId <= b.nextId
    requires forall n :: n in a.generations ==> a.generations[n].Some? && a.generations[n].value.index < e.index
    requires e.predecessor.Some? && e.predecessor.value in a.generations
    ensures Ordered(b) && Grows(a, b)
  {
    forall n | n in b.generations && b.generations[n].Some?
      ensures var g := b.generations[n].value;
              && g.id == n
              && (g.predecessor.Some? ==>
                    && g.predecessor.value < b.nextId
                    && (g.predecessor.value in b.generations && b.generations[g.predecessor.value].Some?
                        ==> b.generations[g.predecessor.value].value.index < g.index))
    {
      if n != e.id {
        assert n in a.generations && b.generations[n] == a.generations[n];
      }
    }
  }

  lemma ResolveKeepsOrder(a: Store, b: Store, r: Resolution)
    requires Ordered(a) && Resolves(a, b, r)
    ensures Ordered(b) && Grows(a, b)
  {
    hide Resolves, Coherent, Unambiguous, Complete, Envelopes, IsNewest, Ordered, Grows;
    OrderedIsFresh(a);
    if r.Resolved? && r.warning.Some? {
      RepairAddsCopy(a, b, r);
      AddedKeepsOrder(a, b, r.selected);
    } else {
      UnrepairedKeepsGenerations(a, b, r);
      SameGenerationsKeepOrder(a, b);
    }
  }

  /** A repair adds one directory, younger than all, that copies one of them. */
  lemma RepairAddsCopy(a: Store, b: Store, r: Resolution)
    requires Fresh(a) && Resolves(a, b, r) && r.Resolved? && r.warning.Some?
    ensures var e := r.selected;
            && b.generations == a.generations[e.id := Some(e)]
            && a.nextId == e.id && b.nextId == a.nextId + 2 && e.continuity == a.nextId + 1
            && (forall n :: n in a.generations ==> a.generations[n].Some? && a.generations[n].value.index < e.index)
            && e.predecessor.Some? && e.predecessor.value in a.generations
  {
    ResolvedIsWhole(a, b, r);
    var head, n := ResolutionParts(a, b, r);
    hide Resolves, Coherent, Fresh;
    CompleteIsNamed(a, n);
    hide Unambiguous, Complete, Envelopes, IsNewest;
    forall m | m in a.generations
      ensures a.generations[m].Some? && a.generations[m].value.index < r.selected.index
    {
      assert m in b.generations && m != r.selected.id;
    }
  }

  lemma SameGenerationsKeepOrder(a: Store, b: Store)
    requires Ordered(a) && b.generations == a.generations && a.nextId <= b.nextId
    ensures Ordered(b) && Grows(a, b)
  {}

  lemma OrderedIsFresh(a: Store)
    requires Ordered(a)
    ensures Fresh(a)
  {}

  lemma UnrepairedKeepsGenerations(a: Store, b: Store, r: Resolution)
    requires Resolves(a, b, r) && (r.Threw? || r.warning.None?)
    ensures b.generations == a.generations && b.nextId == a.nextId
  {
    hide Unambiguous, Coherent, Complete, Envelopes, IsNewest;
  }

  lemma PublishKeepsOrder(a: Store, mid: Store, first: Resolution, replaced: Option<set<Object>>, rotate: bool)
    requires Ordered(a) && Resolves(a, mid, first) && first.Resolved?
    ensures Ordered(Published(mid, first.selected, replaced, rotate)) && Grows(mid, Published(mid, first.selected, replaced, rotate))
  {
    ResolveKeepsOrder(a, mid, first);
    ResolvedIsWhole(a, mid, first);
    hide Resolves, Grows;
    var envelope := Transition(mid, first.selected, replaced, rotate);
    assert first.selected.continuity < mid.nextId;
    hide Ordered;
    AddedKeepsOrder(mid, Published(mid, first.selected, replaced, rotate), envelope);
  }

  lemma ActivateKeepsOrder(a: Store, mid: Store, first: Resolution, b: Store, r: Resolution, source: Name,
                           replaced: Option<set<Object>>, rotate: bool, publishes: bool)
    requires Ordered(a) && Resolves(a, mid, first) && Activates(mid, first, b, r, source, replaced, rotate, publishes)
    ensures Ordered(b) && Grows(a, b)
  {
    hide Resolves, Ordered, Grows, Readable;
    ResolveKeepsOrder(a, mid, first);
    if first.Resolved? && first.selected.id == source {
      var envelope := Transition(mid, first.selected, replaced, rotate);
      if publishes && Readable(envelope.id, Some(envelope)) {
        var published := Published(mid, first.selected, replaced, rotate);
        var second :| Resolves(published, b, second)
                      && r == if second.Resolved? && second.selected.id != envelope.id then Threw(TransitionNotSelected) else second;
        PublishKeepsOrder(a, mid, first, replaced, rotate);
        ResolveKeepsOrder(published, b, second);
        GrowthComposes(a, mid, published);
        GrowthComposes(a, published, b);
      } else {
        SameGenerationsKeepOrder(mid, b);
        GrowthComposes(a, mid, b);
      }
    }
  }

  ghost predicate StoreRun(states: seq<Store>) {
    |states| > 0 && Ordered(states[0]) && forall k :: 0 <= k < |states| - 1 ==> StoreStep(states[k], states[k + 1])
  }

  lemma UnfinishedKeepsOrder(a: Store, b: Store, name: Name)
    requires Ordered(a) && a.nextId <= name < b.nextId && b.generations == a.generations[name := None]
    requires !Broken(a.generations)
    ensures Ordered(b) && Grows(a, b)
  {
    forall n | n in b.generations && b.generations[n].Some?
      ensures n in a.generations && b.generations[n] == a.generations[n]
    {
    }
  }

  lemma TearingKeepsOrder(a: Store, b: Store, torn: set<Name>)
    requires Ordered(a) && Tears(a, b, torn)
    ensures Ordered(b) && Grows(a, b)
  {
    forall n | n in b.generations && b.generations[n].Some?
      ensures n in a.generations && b.generations[n] == a.generations[n]
    {
    }
  }

  lemma UnambiguousIsUnbroken(a: Store)
    requires Unambiguous(a.generations)
    ensures !Broken(a.generations)
  {}

  lemma ResolvedIsUnbroken(a: Store, b: Store, r: Resolution)
    requires Fresh(a) && Resolves(a, b, r) && r.Resolved?
    ensures !Broken(a.generations) && !Broken(b.generations)
  {
    var head, n := ResolutionParts(a, b, r);
    UnambiguousIsUnbroken(a);
    ResolvedIsWhole(a, b, r);
  }

  lemma SameNamesKeepOrder(a: Store, b: Store, c: Store)
    requires Ordered(b) && Grows(a, b) && c.generations == b.generations && c.nextId == b.nextId
    ensures Ordered(c) && Grows(a, c)
  {}

  lemma CopiedIsUnbroken(a: Store, head: Envelope, source: Envelope)
    requires DecidesToCopy(a, head.id, source.id)
    ensures !Broken(a.generations)
  {
    UnambiguousIsUnbroken(a);
  }

  lemma CrashKeepsOrder(a: Store, b: Store)
    requires Ordered(a) && CrashStep(a, b)
    ensures Ordered(b) && Grows(a, b)
  {
    OrderedIsFresh(a);
    hide Resolves, Ordered, Grows, DecidesToCopy, Tears, Fresh;
    if torn :| Tears(a, b, torn) {
      TearingKeepsOrder(a, b, torn);
    } else if head, source, finished, warned :| CrashesCopying(a, b, head, source, finished, warned) {
      CopiedIsUnbroken(a, head, source);
      if finished {
        var r := RepairedResolves(a, head, source);
        ResolveKeepsOrder(a, Repaired(a, head, source), r);
        SameNamesKeepOrder(a, Repaired(a, head, source), b);
      } else {
        UnfinishedKeepsOrder(a, b, a.nextId);
      }
    } else {
      var mid, first, replaced, rotate, finished :|
        Resolves(a, mid, first) && CrashesActivating(mid, first, b, replaced, rotate, finished);
      var published := Published(mid, first.selected, replaced, rotate);
      ResolveKeepsOrder(a, mid, first);
      ResolvedIsUnbroken(a, mid, first);
      if finished {
        PublishKeepsOrder(a, mid, first, replaced, rotate);
        SameNamesKeepOrder(mid, published, b);
      } else {
        UnfinishedKeepsOrder(mid, b, published.nextId);
      }
      GrowthComposes(a, mid, b);
    }
  }

  lemma StepKeepsOrder(a: Store, b: Store)
    requires Ordered(a) && StoreStep(a, b)
    ensures Ordered(b) && Grows(a, b)
  {
    hide Resolves, Activates, CrashStep;
    if CrashStep(a, b) {
      CrashKeepsOrder(a, b);
    } else if r :| Resolves(a, b, r) {
      ResolveKeepsOrder(a, b, r);
    } else if mid, first, r, source, replaced, rotate, publishes :|
      Resolves(a, mid, first) && Activates(mid, first, b, r, source, replaced, rotate, publishes)
    {
      ActivateKeepsOrder(a, mid, first, b, r, source, replaced, rotate, publishes);
    }
  }

  /**
   Runs. However resolutions, activations, crashes of the process or the machine, restarts and changes of the
   objects follow one another: indexes stay unique, predecessor links descend, directories are never changed
   but by tearing, and each new generation is younger than every one before it.
   */
  lemma {:induction false} RunsKeepOrder(states: seq<Store>, i: nat, k: nat)
    requires StoreRun(states) && i <= k < |states|
    ensures Ordered(states[k]) && Grows(states[i], states[k])
    decreases k
  {
    hide StoreRun, StoreStep, Grows, Ordered;
    if k == 0 {
      RunStarts(states);
      SameGenerationsKeepOrder(states[0], states[0]);
    } else {
      var before := if i == k then k - 1 else i;
      RunsKeepOrder(states, before, k - 1);
      RunSteps(states, k - 1);
      StepKeepsOrder(states[k - 1], states[k]);
      if i == k {
        SameGenerationsKeepOrder(states[k], states[k]);
      } else {
        GrowthComposes(states[i], states[k - 1], states[k]);
      }
    }
  }

  /** Still ambiguous, with the same directories, each as it was or torn. */
  ghost predicate StaysAmbiguous(a: Store, b: Store) {
    && !Unambiguous(b.generations) && b.generations.Keys == a.generations.Keys
    && forall n :: n in a.generations ==> b.generations[n] == a.generations[n] || b.generations[n].None?
  }

  /** Nothing makes a disk readable that resolving finds ambiguous. */
  lemma AmbiguousStays(a: Store, b: Store)
    requires !Unambiguous(a.generations) && StoreStep(a, b)
    ensures StaysAmbiguous(a, b)
  {
    hide Unambiguous, Coherent, Complete, Envelopes, IsNewest;
    if torn :| Tears(a, b, torn) {
      TearingIsReadableExactly(a, b, torn);
    }
  }

  /**
   Once a crash has left an unfinished or torn directory, or a fallback an index that is no safe integer,
   resolution is over: in every later state of a run the same directories are there, none mended, and every
   resolution refuses them.
   */
  lemma AmbiguityEndsResolution(states: seq<Store>, i: nat, k: nat, b: Store, r: Resolution)
    requires StoreRun(states) && i <= k < |states| && !Unambiguous(states[i].generations)
    requires Resolves(states[k], b, r)
    ensures StaysAmbiguous(states[i], states[k]) && r == Threw(Ambiguous) && b == states[k]
  {
    hide Unambiguous, StoreStep;
    AmbiguityStays(states, i, k);
  }

  lemma {:induction false} AmbiguityStays(states: seq<Store>, i: nat, k: nat)
    requires StoreRun(states) && i <= k < |states| && !Unambiguous(states[i].generations)
    ensures StaysAmbiguous(states[i], states[k])
    decreases k
  {
    hide StoreRun, StoreStep, Unambiguous;
    if i < k {
      AmbiguityStays(states, i, k - 1);
      RunSteps(states, k - 1);
      AmbiguousStays(states[k - 1], states[k]);
    }
  }

  lemma RunStarts(states: seq<Store>)
    requires StoreRun(states)
    ensures Ordered(states[0])
  {}

  lemma RunSteps(states: seq<Store>, k: nat)
    requires StoreRun(states) && k < |states| - 1
    ensures StoreStep(states[k], states[k + 1])
  {}

  /** No two generations a run repaired or found share a continuity with a later repair. */
  lemma FallbackContinuityIsNew(states: seq<Store>, i: nat, k: nat, r: Resolution, n: Name)
    requires StoreRun(states) && i <= k < |states| - 1 && Resolves(states[k], states[k + 1], r)
    requires r.Resolved? && r.warning.Some? && n in states[i].generations && states[i].generations[n].Some?
    ensures r.selected.continuity != states[i].generations[n].value.continuity
    ensures r.selected.index > states[i].generations[n].value.index
  {
    RunsKeepOrder(states, i, k);
    OrderedIsFresh(states[k]);
    hide StoreRun, StoreStep;
    ResolvedIsWhole(states[k], states[k + 1], r);
    ResolvedIsUnbroken(states[k], states[k + 1], r);
    hide Resolves;
    assert states[k].generations[n] == states[i].generations[n];
    ResolvedBeatsOld(states[k], states[k + 1], r, n);
  }

  lemma ResolvedBeatsOld(a: Store, b: Store, r: Resolution, n: Name)
    requires n in a.generations && a.generations[n].Some? && Ordered(a) && Resolves(a, b, r) && r.Resolved? && r.warning.Some?
    ensures a.generations[n].value.index < r.selected.index
  {
    ResolveKeepsOrder(a, b, r);
    ResolvedIsWhole(a, b, r);
    hide Resolves, Ordered;
  }
}
