/**
 The Client's command journal: a command id stands for one envelope, compared by a canonical printing,
 and its state only moves forward.
 */
module CommandJournal {
  import opened Options
  import opened Json

  // ---------------------------------------------------------------- canonical printing

  /** The key comparison of the sort; localeCompare in the program. */
  type Compare = (Text, Text) -> int

  /** A total preorder on keys. */
  ghost predicate Consistent(compare: Compare) {
    && (forall a, b :: compare(a, b) > 0 <==> compare(b, a) < 0)
    && (forall a, b, c :: compare(a, b) <= 0 && compare(b, c) <= 0 ==> compare(a, c) <= 0)
  }

  /** Only equal keys compare equal. */
  ghost predicate TieFree(compare: Compare) {
    forall a, b :: compare(a, b) == 0 ==> a == b
  }

  /** Stable insertion: a field goes after those whose keys do not follow its own. */
  function InsertField(fields: seq<Field>, field: Field, compare: Compare): seq<Field> {
    if fields == [] || compare(fields[|fields| - 1].key, field.key) <= 0 then fields + [field]
    else InsertField(fields[..|fields| - 1], field, compare) + [fields[|fields| - 1]]
  }

  function SortFields(fields: seq<Field>, compare: Compare): seq<Field> {
    if fields == [] then []
    else InsertField(SortFields(fields[..|fields| - 1], compare), fields[|fields| - 1], compare)
  }

  /** A value with the members of every object sorted by key. */
  function Sorted(v: Json, compare: Compare): Json
    decreases v
  {
    match v
    case Arr(items) => Arr(seq(|items|, i requires 0 <= i < |items| => Sorted(items[i], compare)))
    case Obj(fields) => Obj(SortFields(SortedMembers(fields, compare), compare))
    case _ => v
  }

  function SortedMembers(fields: seq<Field>, compare: Compare): seq<Field>
    decreases fields
  {
    seq(|fields|, i requires 0 <= i < |fields| => Field(fields[i].key, Sorted(fields[i].value, compare)))
  }

  /** canonical: the printing of the sorted value. */
  function Canonical(v: Json, compare: Compare): Text { Print(Sorted(v, compare)) }

  /** Equality up to the order of object members. */
  ghost predicate Same(a: Json, b: Json)
    decreases a, 0
  {
    match a
    case Arr(items) => b.Arr? && |items| == |b.items| && forall i :: 0 <= i < |items| ==> Same(items[i], b.items[i])
    case Obj(fields) => b.Obj? && Covers(fields, b.fields) && AreCovered(fields, b.fields)
    case _ => a == b
  }

  /** Two members with one key and the same value. */
  ghost predicate Matches(f: Field, g: Field)
    decreases f, 0
  {
    f.key == g.key && Same(f.value, g.value)
  }

  ghost predicate HasMatch(f: Field, g: seq<Field>)
    decreases f, 1
  {
    exists j :: 0 <= j < |g| && Matches(f, g[j])
  }

  ghost predicate IsMatch(f: seq<Field>, g: Field)
    decreases f, 0
  {
    exists i :: 0 <= i < |f| && Matches(f[i], g)
  }

  /** Each member on the left has its match on the right. */
  ghost predicate Covers(f: seq<Field>, g: seq<Field>)
    decreases f, 1
  {
    forall i :: 0 <= i < |f| ==> HasMatch(f[i], g)
  }

  /** Each member on the right is the match of one on the left. */
  ghost predicate AreCovered(f: seq<Field>, g: seq<Field>)
    decreases f, 1
  {
    forall j :: 0 <= j < |g| ==> IsMatch(f, g[j])
  }

  // ---------------------------------------------------------------- sorting keeps the members

  lemma {:induction false} InsertMembers(fields: seq<Field>, field: Field, compare: Compare)
    ensures |InsertField(fields, field, compare)| == |fields| + 1
    ensures forall f :: f in InsertField(fields, field, compare) <==> f in fields || f == field
  {
    if fields != [] && compare(fields[|fields| - 1].key, field.key) > 0 {
      InsertMembers(fields[..|fields| - 1], field, compare);
      assert fields == fields[..|fields| - 1] + [fields[|fields| - 1]];
    }
  }

  lemma {:induction false} SortMembers(fields: seq<Field>, compare: Compare)
    ensures |SortFields(fields, compare)| == |fields|
    ensures forall f :: f in SortFields(fields, compare) <==> f in fields
  {
    if fields != [] {
      var n := |fields| - 1;
      SortMembers(fields[..n], compare);
      InsertMembers(SortFields(fields[..n], compare), fields[n], compare);
      assert fields == fields[..n] + [fields[n]];
    }
  }

  lemma {:induction false} InsertKeys(fields: seq<Field>, field: Field, compare: Compare)
    requires KeysDiffer(fields) && forall i :: 0 <= i < |fields| ==> fields[i].key != field.key
    ensures KeysDiffer(InsertField(fields, field, compare))
  {
    if fields != [] && compare(fields[|fields| - 1].key, field.key) > 0 {
      var front, last := fields[..|fields| - 1], fields[|fields| - 1];
      InsertKeys(front, field, compare);
      InsertMembers(front, field, compare);
      var inserted := InsertField(front, field, compare);
      forall i | 0 <= i < |inserted|
        ensures inserted[i].key != last.key
      {
        assert inserted[i] in inserted;
      }
    }
  }

  lemma {:induction false} SortKeys(fields: seq<Field>, compare: Compare)
    requires KeysDiffer(fields)
    ensures KeysDiffer(SortFields(fields, compare))
  {
    if fields != [] {
      var n := |fields| - 1;
      SortKeys(fields[..n], compare);
      SortMembers(fields[..n], compare);
      var front := SortFields(fields[..n], compare);
      forall i | 0 <= i < |front|
        ensures front[i].key != fields[n].key
      {
        assert front[i] in front;
      }
      InsertKeys(front, fields[n], compare);
    }
  }

  // ---------------------------------------------------------------- printing alike means being the same

  lemma {:induction false} SortedIsSame(v: Json, compare: Compare)
    requires WellFormed(v)
    ensures Same(v, Sorted(v, compare)) && WellFormed(Sorted(v, compare))
    decreases v
  {
    match v
    case Arr(items) =>
      forall i | 0 <= i < |items|
        ensures Same(items[i], Sorted(items[i], compare)) && WellFormed(Sorted(items[i], compare))
      {
        SortedIsSame(items[i], compare);
      }
    case Obj(fields) =>
      forall i | 0 <= i < |fields|
        ensures Same(fields[i].value, Sorted(fields[i].value, compare)) && WellFormed(Sorted(fields[i].value, compare))
      {
        SortedIsSame(fields[i].value, compare);
      }
      SortedObjectIsSame(fields, compare);
    case _ =>
  }

  lemma SortedObjectIsSame(fields: seq<Field>, compare: Compare)
    requires KeysDiffer(fields)
    requires forall i :: 0 <= i < |fields| ==>
               Same(fields[i].value, Sorted(fields[i].value, compare)) && WellFormed(Sorted(fields[i].value, compare))
    ensures Same(Obj(fields), Sorted(Obj(fields), compare)) && WellFormed(Sorted(Obj(fields), compare))
  {
    hide SortFields, Same, WellFormed, Covers, AreCovered;
    var members := SortedMembers(fields, compare);
    var sorted := SortFields(members, compare);
    SortMembers(members, compare);
    SortKeys(members, compare);
    SortedCovers(fields, members, sorted, compare);
    SortedAreCovered(fields, members, sorted, compare);
    forall j | 0 <= j < |sorted|
      ensures WellFormed(sorted[j].value)
    {
      assert sorted[j] in members;
    }
    assert Sorted(Obj(fields), compare) == Obj(sorted);
    ObjectsAreSame(fields, sorted);
  }

  lemma ObjectsAreSame(fields: seq<Field>, sorted: seq<Field>)
    requires Covers(fields, sorted) && AreCovered(fields, sorted) && KeysDiffer(sorted)
    requires forall j :: 0 <= j < |sorted| ==> WellFormed(sorted[j].value)
    ensures Same(Obj(fields), Obj(sorted)) && WellFormed(Obj(sorted))
  {
    hide Covers, AreCovered;
  }

  lemma MemberMatches(f: Field, g: Field, compare: Compare)
    requires g == Field(f.key, Sorted(f.value, compare)) && Same(f.value, Sorted(f.value, compare))
    ensures Matches(f, g)
  {
    hide Sorted;
  }

  lemma SortedCovers(fields: seq<Field>, members: seq<Field>, sorted: seq<Field>, compare: Compare)
    requires members == SortedMembers(fields, compare) && forall f :: f in sorted <==> f in members
    requires forall i :: 0 <= i < |fields| ==> Same(fields[i].value, Sorted(fields[i].value, compare))
    ensures Covers(fields, sorted)
  {
    hide Same, Sorted, Matches;
    forall i | 0 <= i < |fields|
      ensures HasMatch(fields[i], sorted)
    {
      assert members[i] in sorted;
      var j :| 0 <= j < |sorted| && sorted[j] == members[i];
      MemberMatches(fields[i], sorted[j], compare);
    }
  }

  lemma SortedAreCovered(fields: seq<Field>, members: seq<Field>, sorted: seq<Field>, compare: Compare)
    requires members == SortedMembers(fields, compare) && forall f :: f in sorted <==> f in members
    requires forall i :: 0 <= i < |fields| ==> Same(fields[i].value, Sorted(fields[i].value, compare))
    ensures AreCovered(fields, sorted)
  {
    hide Same, Sorted, Matches;
    forall j | 0 <= j < |sorted|
      ensures IsMatch(fields, sorted[j])
    {
      assert sorted[j] in members;
      var i :| 0 <= i < |members| && members[i] == sorted[j];
      MemberMatches(fields[i], sorted[j], compare);
    }
  }

  /** What two values are both the same as makes them the same. */
  lemma {:induction false} SameMeets(a: Json, s: Json, b: Json)
    requires Same(a, s) && Same(b, s)
    ensures Same(a, b)
    decreases a
  {
    match a
    case Arr(items) =>
      forall i | 0 <= i < |items|
        ensures Same(items[i], b.items[i])
      {
        SameMeets(items[i], s.items[i], b.items[i]);
      }
    case Obj(fields) =>
      hide Covers, AreCovered;
      CoversMeet(fields, s.fields, b.fields);
      AreCoveredMeet(fields, s.fields, b.fields);
    case _ =>
  }

  lemma {:induction false} CoversMeet(f: seq<Field>, s: seq<Field>, g: seq<Field>)
    requires Covers(f, s) && AreCovered(g, s)
    ensures Covers(f, g)
    decreases f
  {
    hide Matches;
    forall i | 0 <= i < |f|
      ensures HasMatch(f[i], g)
    {
      assert HasMatch(f[i], s);
      var j :| 0 <= j < |s| && Matches(f[i], s[j]);
      assert IsMatch(g, s[j]);
      var k :| 0 <= k < |g| && Matches(g[k], s[j]);
      MatchMeets(f[i], s[j], g[k]);
    }
  }

  lemma {:induction false} AreCoveredMeet(f: seq<Field>, s: seq<Field>, g: seq<Field>)
    requires AreCovered(f, s) && Covers(g, s)
    ensures AreCovered(f, g)
    decreases f
  {
    hide Matches;
    forall k | 0 <= k < |g|
      ensures IsMatch(f, g[k])
    {
      assert HasMatch(g[k], s);
      var j :| 0 <= j < |s| && Matches(g[k], s[j]);
      assert IsMatch(f, s[j]);
      var i :| 0 <= i < |f| && Matches(f[i], s[j]);
      MatchMeets(f[i], s[j], g[k]);
    }
  }

  lemma {:induction false} MatchMeets(f: Field, s: Field, g: Field)
    requires Matches(f, s) && Matches(g, s)
    ensures Matches(f, g)
    decreases f
  {
    hide Same;
    SameMeets(f.value, s.value, g.value);
  }

  /** Whatever the key order, values that print alike are equal up to the order of members. */
  lemma CanonicalIsInjective(a: Json, b: Json, compare: Compare)
    requires WellFormed(a) && WellFormed(b) && Canonical(a, compare) == Canonical(b, compare)
    ensures Same(a, b)
  {
    SortedIsSame(a, compare);
    SortedIsSame(b, compare);
    PrintIsInjective(Sorted(a, compare), Sorted(b, compare));
    SameMeets(a, Sorted(a, compare), b);
  }

  // ---------------------------------------------------------------- being the same means printing alike

  ghost predicate Ascending(fields: seq<Field>, compare: Compare) {
    forall i, j :: 0 <= i < j < |fields| ==> compare(fields[i].key, fields[j].key) < 0
  }

  /** Without ties the sort gives strictly ascending keys. */
  lemma {:induction false} InsertAscends(fields: seq<Field>, field: Field, compare: Compare)
    requires Consistent(compare) && TieFree(compare) && Ascending(fields, compare)
    requires forall i :: 0 <= i < |fields| ==> fields[i].key != field.key
    ensures Ascending(InsertField(fields, field, compare), compare)
  {
    if fields == [] {
    } else if compare(fields[|fields| - 1].key, field.key) <= 0 {
      AppendAscends(fields, field, compare);
    } else {
      var front, last := fields[..|fields| - 1], fields[|fields| - 1];
      LastFollows(fields, field, compare);
      hide Consistent, TieFree;
      InsertAscends(front, field, compare);
      InsertMembers(front, field, compare);
      var inserted := InsertField(front, field, compare);
      hide InsertField;
      forall i | 0 <= i < |inserted|
        ensures compare(inserted[i].key, last.key) < 0
      {
        assert inserted[i] in inserted;
      }
    }
  }

  /** The last field follows those before it, and a new field that it follows. */
  lemma LastFollows(fields: seq<Field>, field: Field, compare: Compare)
    requires Consistent(compare) && Ascending(fields, compare) && fields != []
    requires compare(fields[|fields| - 1].key, field.key) > 0
    ensures var last := fields[|fields| - 1];
            compare(field.key, last.key) < 0 && forall f :: f in fields[..|fields| - 1] ==> compare(f.key, last.key) < 0
    ensures Ascending(fields[..|fields| - 1], compare)
  {}

  /** A field that does not precede the last may be appended. */
  lemma AppendAscends(fields: seq<Field>, field: Field, compare: Compare)
    requires Consistent(compare) && TieFree(compare) && Ascending(fields, compare) && fields != []
    requires compare(fields[|fields| - 1].key, field.key) <= 0
    requires forall i :: 0 <= i < |fields| ==> fields[i].key != field.key
    ensures Ascending(fields + [field], compare)
  {
    var last := fields[|fields| - 1];
    assert forall i :: 0 <= i < |fields| - 1 ==> compare(fields[i].key, last.key) < 0;
    assert forall i :: 0 <= i < |fields| ==> compare(fields[i].key, field.key) <= 0;
  }

  lemma {:induction false} SortAscends(fields: seq<Field>, compare: Compare)
    requires Consistent(compare) && TieFree(compare) && KeysDiffer(fields)
    ensures Ascending(SortFields(fields, compare), compare)
  {
    if fields != [] {
      var n := |fields| - 1;
      SortAscends(fields[..n], compare);
      SortMembers(fields[..n], compare);
      var front := SortFields(fields[..n], compare);
      forall i | 0 <= i < |front|
        ensures front[i].key != fields[n].key
      {
        assert front[i] in front;
      }
      InsertAscends(front, fields[n], compare);
    }
  }

  /** Ascending lists with the same members are the same list. */
  lemma {:induction false} AscendingIsUnique(a: seq<Field>, b: seq<Field>, compare: Compare)
    requires Consistent(compare) && Ascending(a, compare) && Ascending(b, compare)
    requires forall f :: f in a <==> f in b
    ensures a == b
    decreases |a|
  {
    hide Consistent, Ascending;
    assert |a| == 0 || a[0] in a;
    assert |b| == 0 || b[0] in b;
    if a != [] && b != [] {
      var m, n := |a| - 1, |b| - 1;
      LastsAgree(a, b, compare);
      FrontMembers(a, compare);
      FrontMembers(b, compare);
      forall f: Field
        ensures f in a[..m] <==> f in b[..n]
      {
        assert f in a[..m] <==> f in a && f != a[m];
        assert f in b[..n] <==> f in b && f != b[n];
      }
      AscendingIsUnique(a[..m], b[..n], compare);
      assert a == a[..m] + [a[m]] && b == b[..n] + [b[n]];
    }
  }

  lemma NotAfterLast(a: seq<Field>, i: nat, compare: Compare)
    requires Ascending(a, compare) && i < |a|
    ensures a[i] == a[|a| - 1] || compare(a[i].key, a[|a| - 1].key) < 0
  {}

  lemma LastsAgree(a: seq<Field>, b: seq<Field>, compare: Compare)
    requires Consistent(compare) && Ascending(a, compare) && Ascending(b, compare) && a != [] && b != []
    requires forall f :: f in a <==> f in b
    ensures a[|a| - 1] == b[|b| - 1]
  {
    var x, y := a[|a| - 1], b[|b| - 1];
    assert x in b && y in a;
    var j :| 0 <= j < |b| && b[j] == x;
    var i :| 0 <= i < |a| && a[i] == y;
    NotAfterLast(a, i, compare);
    NotAfterLast(b, j, compare);
  }

  lemma FrontMembers(a: seq<Field>, compare: Compare)
    requires a != [] && Consistent(compare) && Ascending(a, compare)
    ensures forall f :: f in a[..|a| - 1] <==> f in a && f != a[|a| - 1]
    ensures Ascending(a[..|a| - 1], compare)
  {
    var last := a[|a| - 1];
    assert a == a[..|a| - 1] + [last];
    assert compare(last.key, last.key) == 0;
    assert forall k :: 0 <= k < |a| - 1 ==> compare(a[k].key, last.key) < 0;
  }

  /** Sorted members of objects that are the same are the same members. */
  lemma {:induction false} SameSortsAlike(a: Json, b: Json, compare: Compare)
    requires Consistent(compare) && TieFree(compare) && WellFormed(a) && WellFormed(b) && Same(a, b)
    ensures Sorted(a, compare) == Sorted(b, compare)
    decreases a
  {
    hide Consistent, TieFree, Covers, AreCovered;
    match a
    case Arr(items) =>
      forall i | 0 <= i < |items|
        ensures Sorted(items[i], compare) == Sorted(b.items[i], compare)
      {
        SameSortsAlike(items[i], b.items[i], compare);
      }
    case Obj(fields) =>
      MembersSortAlike(fields, b.fields, compare);
      SameMembersSortAlike(SortedMembers(fields, compare), SortedMembers(b.fields, compare), compare);
    case _ =>
  }

  lemma {:induction false} MembersSortAlike(f: seq<Field>, g: seq<Field>, compare: Compare)
    requires Consistent(compare) && TieFree(compare) && Covers(f, g) && AreCovered(f, g)
    requires forall i :: 0 <= i < |f| ==> WellFormed(f[i].value)
    requires forall j :: 0 <= j < |g| ==> WellFormed(g[j].value)
    ensures forall x :: x in SortedMembers(f, compare) <==> x in SortedMembers(g, compare)
    decreases f, 1
  {
    hide Consistent, TieFree, Covers, AreCovered, SortedMembers, WellFormed;
    forall x | x in SortedMembers(f, compare)
      ensures x in SortedMembers(g, compare)
    {
      LeftMemberAppears(f, g, x, compare);
    }
    forall x | x in SortedMembers(g, compare)
      ensures x in SortedMembers(f, compare)
    {
      RightMemberAppears(f, g, x, compare);
    }
  }

  lemma {:induction false} LeftMemberAppears(f: seq<Field>, g: seq<Field>, x: Field, compare: Compare)
    requires Consistent(compare) && TieFree(compare) && Covers(f, g) && x in SortedMembers(f, compare)
    requires forall i :: 0 <= i < |f| ==> WellFormed(f[i].value)
    requires forall j :: 0 <= j < |g| ==> WellFormed(g[j].value)
    ensures x in SortedMembers(g, compare)
    decreases f, 0
  {
    hide Consistent, TieFree, Matches, Sorted, WellFormed;
    var i :| 0 <= i < |f| && SortedMembers(f, compare)[i] == x;
    assert HasMatch(f[i], g);
    var j :| 0 <= j < |g| && Matches(f[i], g[j]);
    MatchSortsAlike(f[i], g[j], compare);
    assert SortedMembers(g, compare)[j] == x;
  }

  lemma {:induction false} RightMemberAppears(f: seq<Field>, g: seq<Field>, x: Field, compare: Compare)
    requires Consistent(compare) && TieFree(compare) && AreCovered(f, g) && x in SortedMembers(g, compare)
    requires forall i :: 0 <= i < |f| ==> WellFormed(f[i].value)
    requires forall j :: 0 <= j < |g| ==> WellFormed(g[j].value)
    ensures x in SortedMembers(f, compare)
    decreases f, 0
  {
    hide Consistent, TieFree, Matches, Sorted, WellFormed;
    var j :| 0 <= j < |g| && SortedMembers(g, compare)[j] == x;
    assert IsMatch(f, g[j]);
    var i :| 0 <= i < |f| && Matches(f[i], g[j]);
    MatchSortsAlike(f[i], g[j], compare);
    assert SortedMembers(f, compare)[i] == x;
  }

  lemma {:induction false} MatchSortsAlike(f: Field, g: Field, compare: Compare)
    requires Consistent(compare) && TieFree(compare) && Matches(f, g) && WellFormed(f.value) && WellFormed(g.value)
    ensures f.key == g.key && Sorted(f.value, compare) == Sorted(g.value, compare)
    decreases f
  {
    SameSortsAlike(f.value, g.value, compare);
  }

  lemma SameMembersSortAlike(s: seq<Field>, t: seq<Field>, compare: Compare)
    requires Consistent(compare) && TieFree(compare) && KeysDiffer(s) && KeysDiffer(t)
    requires forall x :: x in s <==> x in t
    ensures SortFields(s, compare) == SortFields(t, compare)
  {
    SortMembers(s, compare);
    SortMembers(t, compare);
    SortAscends(s, compare);
    SortAscends(t, compare);
    hide Consistent, TieFree, SortFields, Ascending;
    AscendingIsUnique(SortFields(s, compare), SortFields(t, compare), compare);
  }

  // ---------------------------------------------------------------- exactly when printing identifies values

  /** Values equal up to member order always print alike. */
  ghost predicate IgnoresOrder(compare: Compare) {
    forall a, b :: WellFormed(a) && WellFormed(b) && Same(a, b) ==> Canonical(a, compare) == Canonical(b, compare)
  }

  /**
   Canonical printing. With a key order that ties only equal keys, two values print alike exactly when
   they are equal up to the order of object members.
   */
  lemma CanonicalIsExact(a: Json, b: Json, compare: Compare)
    requires Consistent(compare) && TieFree(compare) && WellFormed(a) && WellFormed(b)
    ensures Canonical(a, compare) == Canonical(b, compare) <==> Same(a, b)
  {
    if Same(a, b) {
      SameSortsAlike(a, b, compare);
    }
    if Canonical(a, compare) == Canonical(b, compare) {
      CanonicalIsInjective(a, b, compare);
    }
  }

  /** Two different keys that compare equal are printed in the order they were given in. */
  lemma TiedKeysKeepOrder(k: Text, l: Text, compare: Compare)
    requires Consistent(compare) && k != l && compare(k, l) == 0
    ensures var a, b := Obj([Field(k, Null), Field(l, Null)]), Obj([Field(l, Null), Field(k, Null)]);
            WellFormed(a) && WellFormed(b) && Same(a, b) && Canonical(a, compare) != Canonical(b, compare)
  {
    var f, g := Field(k, Null), Field(l, Null);
    SwappedIsSame(f, g);
    TiedPairIsSorted(f, g, compare);
    TiedPairIsSorted(g, f, compare);
    assert [f, g][0] != [g, f][0];
    hide Same, WellFormed, Sorted, Print, Consistent;
    if Print(Obj([f, g])) == Print(Obj([g, f])) {
      PrintIsInjective(Obj([f, g]), Obj([g, f]));
    }
  }

  lemma SwappedIsSame(f: Field, g: Field)
    requires f.value == Null && g.value == Null && f.key != g.key
    ensures WellFormed(Obj([f, g])) && WellFormed(Obj([g, f])) && Same(Obj([f, g]), Obj([g, f]))
  {
    hide Same, Covers, AreCovered, HasMatch, IsMatch, Matches;
    NullMatches(f, [g, f], 1, [f, g], 0);
    NullMatches(g, [g, f], 0, [f, g], 1);
    PairIsCovered(f, g);
    SameFromCovers([f, g], [g, f]);
  }

  lemma NullMatches(f: Field, g: seq<Field>, j: nat, x: seq<Field>, i: nat)
    requires f.value == Null && j < |g| && g[j] == f && i < |x| && x[i] == f
    ensures HasMatch(f, g) && IsMatch(x, f)
  {
    assert Matches(f, g[j]) && Matches(x[i], f);
    hide Matches, Same;
  }

  lemma PairIsCovered(f: Field, g: Field)
    requires HasMatch(f, [g, f]) && HasMatch(g, [g, f]) && IsMatch([f, g], f) && IsMatch([f, g], g)
    ensures Covers([f, g], [g, f]) && AreCovered([f, g], [g, f])
  {
    hide HasMatch, IsMatch;
  }

  lemma SameFromCovers(f: seq<Field>, g: seq<Field>)
    requires Covers(f, g) && AreCovered(f, g)
    ensures Same(Obj(f), Obj(g))
  {
    hide Covers, AreCovered;
  }

  lemma TiedPairIsSorted(f: Field, g: Field, compare: Compare)
    requires f.value == Null && g.value == Null && compare(f.key, g.key) <= 0
    ensures Sorted(Obj([f, g]), compare) == Obj([f, g])
  {
    assert SortedMembers([f, g], compare) == [f, g];
    assert [f, g][..1] == [f] && [f][..0] == [];
    assert SortFields([f], compare) == InsertField([], f, compare) == [f];
    assert SortFields([f, g], compare) == InsertField([f], g, compare);
  }

  /** The printing ignores member order exactly when the key order has no ties between different keys. */
  lemma OrderIsIgnoredExactlyWithoutTies(compare: Compare)
    requires Consistent(compare)
    ensures IgnoresOrder(compare) <==> TieFree(compare)
  {
    if TieFree(compare) {
      forall a, b | WellFormed(a) && WellFormed(b) && Same(a, b)
        ensures Canonical(a, compare) == Canonical(b, compare)
      {
        CanonicalIsExact(a, b, compare);
      }
    } else {
      var k, l :| compare(k, l) == 0 && k != l;
      TiedKeysKeepOrder(k, l, compare);
    }
  }

  // ---------------------------------------------------------------- the journal

  datatype State = Reserved | Sent | Uncertain | Terminal | Reconciled

  function Rank(state: State): nat {
    match state
    case Reserved => 0
    case Sent => 1
    case Uncertain => 2
    case Terminal => 3
    case Reconciled => 4
  }

  /** The order of a command's life, told pair by pair. */
  predicate ComesBefore(a: State, b: State) {
    match a
    case Reserved => !b.Reserved?
    case Sent => b.Uncertain? || b.Terminal? || b.Reconciled?
    case Uncertain => b.Terminal? || b.Reconciled?
    case Terminal => b.Reconciled?
    case Reconciled => false
  }

  lemma RanksFollowTheLife(a: State, b: State)
    ensures Rank(a) < Rank(b) <==> ComesBefore(a, b)
  {}

  datatype JournalEntry = JournalEntry(envelope: Json, state: State, generation: nat)

  datatype Error = ContinuityChanged | DifferentEnvelope | NotReserved | MovesBackward | ScopesNotCurrent | HostRejected

  datatype Result = Ok(entry: JournalEntry) | Err(error: Error)

  /** What the Host says of a command that the Client is unsure of, if the call to it returns. */
  datatype Answer = SaysTerminal | SaysUncertain | Rejects

  function AnswerState(answer: Answer): State { if answer.SaysTerminal? then Reconciled else Uncertain }

  /** Entries stay, keep their envelopes, and do not move back. */
  ghost predicate Advances(a: map<Text, JournalEntry>, b: map<Text, JournalEntry>) {
    forall id :: id in a ==>
      && id in b && b[id].envelope == a[id].envelope && b[id].generation == a[id].generation
      && Rank(a[id].state) <= Rank(b[id].state)
  }

  /** An entry that reconciliation asks the Host about. */
  predicate Asked(entry: JournalEntry, generation: nat) {
    !entry.state.Reconciled? && !entry.state.Reserved? && entry.generation == generation
  }

  /** Reconciliation can finish past an entry: it is not asked about, or the answer can be taken. */
  predicate Answerable(entry: JournalEntry, generation: nat, continuity: nat, answer: Answer) {
    Asked(entry, generation)
    ==> generation == continuity && !answer.Rejects? && (entry.state.Terminal? ==> answer.SaysTerminal?)
  }

  /** The entry as its answer leaves it. */
  function Answered(entry: JournalEntry, generation: nat, answer: Answer): JournalEntry {
    if Asked(entry, generation) && !answer.Rejects? then entry.(state := AnswerState(answer)) else entry
  }

  class ClientCommandJournal {
    const compare: Compare
    var continuity: nat
    var commands: map<Text, JournalEntry>

    constructor (compare: Compare, continuity: nat)
      ensures this.compare == compare && this.continuity == continuity && commands == map[]
    {
      this.compare, this.continuity, this.commands := compare, continuity, map[];
    }

    /** Reserves an id for an envelope; a reserved id answers its entry, or refuses another envelope. */
    method Reserve(id: Text, envelope: Json, generation: nat) returns (r: Result)
      modifies this`commands
      ensures r == if generation != continuity then Err(ContinuityChanged)
                   else if id !in old(commands) then Ok(JournalEntry(envelope, Reserved, generation))
                   else if Canonical(old(commands)[id].envelope, compare) != Canonical(envelope, compare) then Err(DifferentEnvelope)
                   else Ok(old(commands)[id])
      ensures commands == if r.Ok? then old(commands)[id := r.entry] else old(commands)
      ensures Advances(old(commands), commands)
    {
      if generation != continuity {
        return Err(ContinuityChanged);
      }
      if id in commands {
        var existing := commands[id];
        if Canonical(existing.envelope, compare) != Canonical(envelope, compare) {
          return Err(DifferentEnvelope);
        }
        assert commands[id := existing] == commands;
        return Ok(existing);
      }
      var entry := JournalEntry(envelope, Reserved, generation);
      commands := commands[id := entry];
      r := Ok(entry);
    }

    method Advance(id: Text, next: State, generation: nat) returns (r: Result)
      modifies this`commands
      ensures r == if generation != continuity then Err(ContinuityChanged)
                   else if id !in old(commands) then Err(NotReserved)
                   else if Rank(next) < Rank(old(commands)[id].state) then Err(MovesBackward)
                   else Ok(old(commands)[id].(state := next))
      ensures commands == if r.Ok? then old(commands)[id := r.entry] else old(commands)
      ensures Advances(old(commands), commands)
      ensures r == Err(MovesBackward) <==> generation == continuity && id in old(commands) && ComesBefore(next, old(commands)[id].state)
    {
      if generation != continuity {
        return Err(ContinuityChanged);
      }
      if id !in commands {
        return Err(NotReserved);
      }
      var entry := commands[id];
      if Rank(next) < Rank(entry.state) {
        return Err(MovesBackward);
      }
      commands := commands[id := entry.(state := next)];
      r := Ok(commands[id]);
    }

    /**
     Asks about each unresolved command in turn. It finishes exactly if there is none to ask about, or the
     continuity is the current one, every call to the Host returns, and the Host is uncertain of none that
     is already terminal: such an answer would move the command back, and ends the reconciliation.
     */
    method Reconcile(scopesAreCurrent: bool, generation: nat, answers: Text -> Answer) returns (error: Option<Error>)
      modifies this`commands
      ensures Advances(old(commands), commands) && commands.Keys == old(commands.Keys)
      ensures !scopesAreCurrent ==> error == Some(ScopesNotCurrent) && commands == old(commands)
      ensures scopesAreCurrent ==>
                (error.None? <==> forall id :: id in old(commands)
                                    ==> Answerable(old(commands)[id], generation, continuity, answers(id)))
      ensures forall id :: id in commands ==>
                commands[id] in {old(commands)[id], Answered(old(commands)[id], generation, answers(id))}
      ensures error.None? ==>
                forall id :: id in commands ==> commands[id] == Answered(old(commands)[id], generation, answers(id))
    {
      if !scopesAreCurrent {
        return Some(ScopesNotCurrent);
      }
      hide Advances;
      var unresolved := commands;
      AdvancesItself(commands);
      var rest := unresolved.Keys;
      while rest != {}
        invariant rest <= unresolved.Keys && Advances(unresolved, commands)
        invariant Taken(unresolved, commands, rest, generation, continuity, answers)
        decreases |rest|
      {
        var id :| id in rest;
        ghost var before := commands;
        if Asked(unresolved[id], generation) {
          if answers(id).Rejects? {
            return Some(HostRejected);
          }
          var result := Advance(id, AnswerState(answers(id)), generation);
          AdvancesCompose(unresolved, before, commands);
          if result.Err? {
            return Some(result.error);
          }
        }
        TakenNext(unresolved, before, commands, rest, id, generation, continuity, answers);
        rest := rest - {id};
      }
      error := None;
    }
  }

  /** The entries not in `rest` have been answered, and the others are as they were. */
  ghost predicate Taken(was: map<Text, JournalEntry>, now: map<Text, JournalEntry>, rest: set<Text>,
                        generation: nat, continuity: nat, answers: Text -> Answer)
  {
    && now.Keys == was.Keys
    && (forall id :: id in was && id in rest ==> now[id] == was[id])
    && forall id :: id in was && id !in rest ==>
         now[id] == Answered(was[id], generation, answers(id)) && Answerable(was[id], generation, continuity, answers(id))
  }

  lemma TakenNext(was: map<Text, JournalEntry>, before: map<Text, JournalEntry>, now: map<Text, JournalEntry>,
                  rest: set<Text>, id: Text, generation: nat, continuity: nat, answers: Text -> Answer)
    requires Taken(was, before, rest, generation, continuity, answers) && id in rest && id in was
    requires now == before[id := Answered(was[id], generation, answers(id))]
    requires Answerable(was[id], generation, continuity, answers(id))
    ensures Taken(was, now, rest - {id}, generation, continuity, answers)
  {
    hide Answered, Answerable;
  }

  lemma AdvancesItself(a: map<Text, JournalEntry>)
    ensures Advances(a, a)
  {}

  /** What one operation keeps, any number of them keeps. */
  lemma AdvancesCompose(a: map<Text, JournalEntry>, b: map<Text, JournalEntry>, c: map<Text, JournalEntry>)
    requires Advances(a, b) && Advances(b, c)
    ensures Advances(a, c)
  {}

  /** A reused id is refused exactly when the envelope differs by more than the order of members. */
  lemma ReserveRefusesExactlyOtherEnvelopes(entry: JournalEntry, envelope: Json, compare: Compare)
    requires Consistent(compare) && TieFree(compare) && WellFormed(entry.envelope) && WellFormed(envelope)
    ensures Canonical(entry.envelope, compare) != Canonical(envelope, compare) <==> !Same(entry.envelope, envelope)
  {
    CanonicalIsExact(entry.envelope, envelope, compare);
  }
}
