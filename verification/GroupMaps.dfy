/**
 Group maps as they live on the heap (pkg/groups/groupmap.go). A slice is a window on a backing array that may have room
 behind it; `append` writes into that room when it suffices, so two slices over one array can overwrite each other.
 */
module GroupMaps {
  import opened Errors
  import opened Options
  import opened Subjects
  import opened Groupers
  import opened MergeAlgebra

  datatype Slice = Slice(data: array<Subject>, off: nat, len: nat, cap: nat) {
    predicate InBounds() {
      len <= cap && off + cap <= data.Length
    }

    /** No room behind the window: any append of something reallocates. */
    predicate Full() {
      len == cap
    }

    function View(): seq<Subject>
      requires InBounds()
      reads data
    {
      data[off..off + len]
    }
  }

  function Whole(data: array<Subject>): Slice {
    Slice(data, 0, data.Length, data.Length)
  }

  /** Appending to `s` does not write into what `t` shows. */
  predicate Apart(s: Slice, t: Slice) {
    s.data == t.data ==> s.Full() || t.off + t.len <= s.off + s.len || s.off + s.cap <= t.off
  }

  function At(m: map<string, seq<Subject>>, group: string): seq<Subject> {
    if group in m then m[group] else []
  }

  /** The groups of `a` merged with those of `b`: shared and new groups are normalised, the others kept as they are. */
  ghost predicate MergeOf(a: map<string, seq<Subject>>, b: map<string, seq<Subject>>, r: map<string, seq<Subject>>) {
    && r.Keys == a.Keys + b.Keys
    && (forall group :: group in b ==> Canonical(r[group], Elems(At(a, group)) + Elems(b[group])))
    && (forall group :: group in a && group !in b ==> r[group] == a[group])
  }

  /** Go's append. */
  method Append(s: Slice, xs: seq<Subject>) returns (t: Slice)
    requires s.InBounds()
    modifies s.data
    ensures t.InBounds() && t.View() == old(s.View()) + xs
    ensures if s.len + |xs| <= s.cap then t == s.(len := s.len + |xs|) else fresh(t.data)
    ensures forall i :: 0 <= i < s.data.Length && !(s.off + s.len <= i < s.off + s.cap && s.len + |xs| <= s.cap) ==>
              s.data[i] == old(s.data[i])
    ensures forall i :: s.off + s.len + |xs| <= i < s.data.Length ==> s.data[i] == old(s.data[i])
    ensures forall u: Slice :: u.data == s.data && u.InBounds() && Apart(s, u) ==> u.View() == old(u.View())
  {
    var end := s.off + s.len;
    if s.len + |xs| <= s.cap {
      for i := 0 to |xs|
        invariant forall k :: 0 <= k < s.data.Length ==>
                    s.data[k] == if end <= k < end + i then xs[k - end] else old(s.data[k])
      {
        s.data[end + i] := xs[i];
      }
      t := s.(len := s.len + |xs|);
    } else {
      var all := s.View() + xs;
      var data := new Subject[|all|](i requires 0 <= i < |all| => all[i]);
      t := Whole(data);
      assert t.View() == all;
    }
  }

  /** Sorted and unique, in an array without room. */
  ghost predicate Tidy(s: Slice)
    reads s.data
  {
    s.InBounds() && s.Full() && Canonical(s.View(), Elems(s.View()))
  }

  method NormalSlice(subjects: seq<Subject>) returns (s: Slice)
    ensures fresh(s.data) && s.InBounds() && s.Full() && Canonical(s.View(), Elems(subjects))
  {
    var normal := Normalize(subjects);
    s := Whole(normal);
    assert s.View() == normal[..];
  }

  class GroupMap {
    var entries: map<string, Slice>
    ghost var Repr: set<array<Subject>>  // the backing arrays

    ghost predicate Valid()
      reads this
    {
      forall group :: group in entries ==> entries[group].InBounds() && entries[group].data in Repr
    }

    /** The map reads as `m`. */
    ghost predicate Shows(m: map<string, seq<Subject>>)
      reads this, Repr
    {
      && Valid() && entries.Keys == m.Keys
      && forall group :: group in entries ==> entries[group].View() == m[group]
    }

    ghost function Contents(): map<string, seq<Subject>>
      requires Valid()
      reads this, Repr
    {
      map group | group in entries :: entries[group].View()
    }

    /** Appending to one group overwrites nothing that another group here, or any group of `other`, shows. */
    ghost predicate Unshared(other: GroupMap)
      reads this, other
    {
      && (forall g, g' {:trigger Apart(entries[g], entries[g'])} ::
            g in entries && g' in entries && g != g' ==> Apart(entries[g], entries[g']))
      && (forall g, g' {:trigger Apart(entries[g], other.entries[g'])} ::
            g in entries && g' in other.entries ==> Apart(entries[g], other.entries[g']))
    }

    constructor Of(gm: map<string, Slice>, ghost arrays: set<array<Subject>>)
      ensures entries == gm && Repr == arrays
    {
      entries, Repr := gm, arrays;
    }

    /** NewGroupMap: every group of the plain map, sorted and unique. */
    constructor FromMap(m: map<string, seq<Subject>>)
      ensures Valid() && fresh(Repr) && entries.Keys == m.Keys
      ensures forall group :: group in m ==> Canonical(Contents()[group], Elems(m[group]))
    {
      var gm: map<string, Slice>, rest := map[], m.Keys;
      ghost var arrays := {};
      while rest != {}
        invariant rest <= m.Keys && gm.Keys == m.Keys - rest && fresh(arrays)
        invariant forall group :: group in gm ==>
                    && gm[group].InBounds() && gm[group].data in arrays
                    && Canonical(gm[group].View(), Elems(m[group]))
      {
        var group :| group in rest;
        var normal := NormalSlice(m[group]);
        gm, rest, arrays := gm[group := normal], rest - {group}, arrays + {normal.data};
      }
      entries, Repr := gm, arrays;
    }

    method Members(group: string) returns (ans: Answer)
      requires Valid()
      ensures Allows(Static(Contents()), group, ans)
    {
      if group !in entries {
        return Failed(Wrap("subjects in group " + group, NotFound));
      }
      var s := entries[group];
      ans := Found(s.View());
    }

    /** The copy shows the same and shares no backing array; its slices have no room. */
    method DeepCopy() returns (n: GroupMap)
      requires Valid()
      ensures fresh(n) && n.Valid() && fresh(n.Repr)
      ensures n.Contents() == Contents()
      ensures forall group :: group in n.entries ==> n.entries[group].Full()
    {
      var gm, arrays := Copies();
      n := new GroupMap.Of(gm, arrays);
    }

    method Copies() returns (gm: map<string, Slice>, ghost arrays: set<array<Subject>>)
      requires Valid()
      ensures fresh(arrays) && gm.Keys == entries.Keys
      ensures forall group :: group in gm ==>
                && gm[group].InBounds() && gm[group].Full() && gm[group].data in arrays
                && gm[group].View() == entries[group].View()
    {
      var rest := entries.Keys;
      gm, arrays := map[], {};
      while rest != {}
        invariant rest <= entries.Keys && gm.Keys == entries.Keys - rest && fresh(arrays)
        invariant forall group :: group in gm ==>
                    && gm[group].InBounds() && gm[group].Full() && gm[group].data in arrays
                    && gm[group].View() == entries[group].View()
      {
        var group :| group in rest;
        var copy := Clone(entries[group]);
        gm, rest, arrays := gm[group := copy], rest - {group}, arrays + {copy.data};
      }
    }

    /** make and copy. */
    method Clone(s: Slice) returns (t: Slice)
      requires s.InBounds()
      ensures fresh(t.data) && t.InBounds() && t.Full() && t.View() == s.View()
    {
      var view := s.View();
      var data := new Subject[s.len](i requires 0 <= i < |view| => view[i]);
      t := Whole(data);
      assert t.View() == data[..];
    }

    /**
     Merges `other`, possibly the receiver itself, into the receiver, which is returned: groups of `other` end sorted
     and unique, the others keep their slices. Where the slices do not share room, groups are merged as they should
     be, and `other`, if it is another map, shows what it showed before.
     */
    method MergeInto(other: GroupMap) returns (r: GroupMap)
      requires Valid() && other.Valid()
      modifies this, Repr
      ensures r == this && Valid() && fresh(Repr - old(Repr))
      ensures entries.Keys == old(entries.Keys) + old(other.entries.Keys)
      ensures forall group :: group in entries ==>
                if group in old(other.entries) then Tidy(entries[group]) else entries[group] == old(entries)[group]
      ensures old(Unshared(other)) ==> MergeOf(old(Contents()), old(other.Contents()), Contents())
      ensures other != this ==> other.Valid()
      ensures other != this && old(Unshared(other)) ==> other.Contents() == old(other.Contents())
    {
      ghost var mine, theirs := Contents(), other.Contents();
      MergingStarts(other);
      ghost var now := MergeAll(other, mine, theirs);
      MergingEnds(other, mine, theirs, now);
      r := this;
    }

    /** While groups are merged one by one, `other` shows at least the groups in `rest` as before. */
    ghost predicate StillShows(other: GroupMap, rest: set<string>, theirs: map<string, seq<Subject>>)
      requires other.Valid()
      reads this, other, other.Repr
    {
      && (forall group :: group in rest && group in other.entries ==>
            group in theirs && other.entries[group].View() == theirs[group])
      && (other != this ==> other.Shows(theirs))
    }

    /** Nothing that is needed later can be overwritten, and what is shown is the merge but for the groups in `rest`. */
    ghost predicate Merging(other: GroupMap, rest: set<string>, mine: map<string, seq<Subject>>,
                            theirs: map<string, seq<Subject>>, now: map<string, seq<Subject>>)
      requires other.Valid()
      reads this, Repr, other, other.Repr
    {
      && Unshared(other) && Shows(now) && StillShows(other, rest, theirs)
      && MergedBut(mine, theirs, rest, now)
    }

    lemma MergingStarts(other: GroupMap)
      requires Valid() && other.Valid()
      ensures Unshared(other) ==> Merging(other, other.entries.Keys, Contents(), other.Contents(), Contents())
    {
      MergedButNone(Contents(), other.Contents(), Contents());
    }

    lemma MergingEnds(other: GroupMap, mine: map<string, seq<Subject>>, theirs: map<string, seq<Subject>>,
                      now: map<string, seq<Subject>>)
      requires Valid() && other.Valid()
      ensures Merging(other, {}, mine, theirs, now) ==>
                MergeOf(mine, theirs, Contents()) && (other != this ==> other.Contents() == theirs)
    {
      if Merging(other, {}, mine, theirs, now) {
        MergedButNone(mine, theirs, now);
        ContentsShown(now);
        if other != this {
          other.ContentsShown(theirs);
        }
      }
    }

    lemma ContentsShown(m: map<string, seq<Subject>>)
      requires Shows(m)
      ensures Contents() == m
    {
    }

    lemma FullIsUnshared(other: GroupMap)
      requires forall group :: group in entries ==> entries[group].Full()
      ensures Unshared(other)
    {
    }

    /** The loop of MergeInto, through the groups of `other` in any order. */
    method MergeAll(other: GroupMap, ghost mine: map<string, seq<Subject>>, ghost theirs: map<string, seq<Subject>>)
      returns (ghost now: map<string, seq<Subject>>)
      requires Valid() && other.Valid()
      modifies this, Repr
      ensures Valid() && other.Valid() && fresh(Repr - old(Repr))
      ensures entries.Keys == old(entries.Keys) + old(other.entries.Keys)
      ensures Renewed(old(other.entries.Keys), old(entries), old(Repr))
      ensures old(Merging(other, other.entries.Keys, mine, theirs, mine)) ==> Merging(other, {}, mine, theirs, now)
    {
      now := mine;
      ghost var good := Merging(other, other.entries.Keys, mine, theirs, mine);
      ghost var before, all, arrays, done := entries, other.entries.Keys, Repr, {};
      var rest := other.entries.Keys;
      while rest != {}
        invariant Valid() && other.Valid() && fresh(Repr - old(Repr))
        invariant rest !! done && rest + done == all <= other.entries.Keys
        invariant entries.Keys == before.Keys + done
        invariant arrays <= Repr && Renewed(done, before, arrays)
        invariant good ==> Merging(other, rest, mine, theirs, now)
      {
        var group :| group in rest;
        now := MergeNext(other, group, rest, mine, theirs, now, done, before, arrays);
        rest, done := rest - {group}, done + {group};
      }
    }

    /** The groups in `done` have new tidy slices, the others the slices they had before, over the given arrays. */
    ghost predicate Renewed(done: set<string>, before: map<string, Slice>, arrays: set<array<Subject>>)
      reads this, Repr
    {
      && Valid() && done <= entries.Keys
      && (forall g :: g in before ==> before[g].data in arrays)
      && (forall g :: g in entries && g !in done ==> g in before && entries[g] == before[g])
      && (forall g :: g in done ==> entries[g].data !in arrays && Tidy(entries[g]))
    }

    method MergeNext(other: GroupMap, group: string, ghost rest: set<string>, ghost mine: map<string, seq<Subject>>,
                     ghost theirs: map<string, seq<Subject>>, ghost was: map<string, seq<Subject>>,
                     ghost done: set<string>, ghost before: map<string, Slice>, ghost arrays: set<array<Subject>>)
      returns (ghost now: map<string, seq<Subject>>)
      requires Valid() && other.Valid() && group in other.entries && group in rest && group !in done
      requires arrays <= Repr && Renewed(done, before, arrays)
      modifies this, Repr
      ensures Valid() && other.Valid() && fresh(Repr - old(Repr)) && old(Repr) <= Repr
      ensures Renewed(done + {group}, before, arrays)
      ensures entries.Keys == old(entries.Keys) + {group} && old(other.entries.Keys) <= other.entries.Keys
      ensures old(Merging(other, rest, mine, theirs, was)) ==> Merging(other, rest - {group}, mine, theirs, now)
    {
      now := MergeGroup(other, group, rest, mine, theirs, was);
    }

    /** One round of MergeInto. */
    method MergeGroup(other: GroupMap, group: string, ghost rest: set<string>, ghost mine: map<string, seq<Subject>>,
                      ghost theirs: map<string, seq<Subject>>, ghost was: map<string, seq<Subject>>)
      returns (ghost now: map<string, seq<Subject>>)
      requires Valid() && other.Valid() && group in other.entries && group in rest
      modifies this, if group in entries then {entries[group].data} else {}
      ensures Valid() && other.Valid() && fresh(Repr - old(Repr)) && old(Repr) <= Repr
      ensures group in entries && fresh(entries[group].data) && Tidy(entries[group])
      ensures entries == old(entries)[group := entries[group]] && old(other.entries.Keys) <= other.entries.Keys
      ensures old(Merging(other, rest, mine, theirs, was)) ==> Merging(other, rest - {group}, mine, theirs, now)
    {
      ghost var good := Merging(other, rest, mine, theirs, was);
      var joined := Join(other, group, rest, was, theirs);
      var normal := NormalSlice(joined);
      now := was[group := normal.View()];
      assert good ==> Unshared(other) && Shows(was) && StillShows(other, rest, theirs);
      Put(other, group, normal, rest, was, theirs);
      if good {
        MergedButOne(mine, theirs, rest, was, group, joined, normal.View());
      }
    }

    /** gm[group] = subjects, for a new slice without room. */
    method Put(other: GroupMap, group: string, subjects: Slice, ghost rest: set<string>,
               ghost mine: map<string, seq<Subject>>, ghost theirs: map<string, seq<Subject>>)
      requires Valid() && other.Valid() && group in other.entries
      requires subjects.InBounds() && subjects.Full() && subjects.data !in Repr && subjects.data !in other.Repr
      modifies this
      ensures Valid() && other.Valid() && Repr == old(Repr) + {subjects.data}
      ensures entries == old(entries)[group := subjects]
      ensures old(Unshared(other)) ==> Unshared(other)
      ensures old(Shows(mine)) ==> Shows(mine[group := subjects.View()])
      ensures old(StillShows(other, rest, theirs)) ==> StillShows(other, rest - {group}, theirs)
    {
      entries, Repr := entries[group := subjects], Repr + {subjects.data};
      if old(Unshared(other)) {
        forall g, g' | g in entries && g' in entries && g != g'
          ensures Apart(entries[g], entries[g'])
        {
          assert g != group && g' != group ==> Apart(old(entries)[g], old(entries)[g']);
        }
        forall g, g' | g in entries && g' in other.entries
          ensures Apart(entries[g], other.entries[g'])
        {
          assert g != group ==> Apart(old(entries)[g], old(other.entries)[g']);
        }
      }
    }

    /** append(gm[group], subjects...). */
    method Join(other: GroupMap, group: string, ghost rest: set<string>, ghost mine: map<string, seq<Subject>>,
                ghost theirs: map<string, seq<Subject>>)
      returns (joined: seq<Subject>)
      requires Valid() && other.Valid() && group in other.entries && group in rest
      modifies if group in entries then {entries[group].data} else {}
      ensures old(Unshared(other) && Shows(mine) && StillShows(other, rest, theirs)) ==>
                && Shows(mine) && StillShows(other, rest, theirs)
                && group in theirs && joined == At(mine, group) + theirs[group]
    {
      var subjects := other.entries[group].View();
      joined := subjects;
      if group in entries {
        var t := AppendTo(other, group, subjects);
        joined := t.View();
      }
    }

    /** Whatever room append writes into, nothing that is shown changes if the room is not shared. */
    method AppendTo(other: GroupMap, group: string, subjects: seq<Subject>) returns (t: Slice)
      requires Valid() && other.Valid() && group in entries
      modifies entries[group].data
      ensures t.InBounds() && t.View() == old(entries[group].View()) + subjects
      ensures Unshared(other) ==> forall g :: g in entries ==> entries[g].View() == old(entries[g].View())
      ensures Unshared(other) ==>
                forall g :: g in other.entries ==> other.entries[g].View() == old(other.entries[g].View())
    {
      var prior := entries[group];
      t := Append(prior, subjects);
      if Unshared(other) {
        forall g | g in entries
          ensures entries[g].View() == old(entries[g].View())
        {
          assert g != group && entries[g].data == prior.data ==> Apart(prior, entries[g]);
        }
        forall g | g in other.entries
          ensures other.entries[g].View() == old(other.entries[g].View())
        {
          assert Apart(prior, other.entries[g]);
        }
      }
    }
  }

  /** The merge with the groups in `rest` still to be done. */
  ghost predicate MergedBut(a: map<string, seq<Subject>>, b: map<string, seq<Subject>>, rest: set<string>,
                            r: map<string, seq<Subject>>)
  {
    && (forall group :: group in r <==> group in a || (group in b && group !in rest))
    && (forall group :: group in b && group !in rest ==> Canonical(r[group], Elems(At(a, group)) + Elems(b[group])))
    && (forall group :: group in a && (group in rest || group !in b) ==> r[group] == a[group])
  }

  lemma MergedButOne(a: map<string, seq<Subject>>, b: map<string, seq<Subject>>, rest: set<string>,
                     r: map<string, seq<Subject>>, group: string, joined: seq<Subject>, merged: seq<Subject>)
    requires MergedBut(a, b, rest, r) && group in b && group in rest
    requires joined == At(r, group) + b[group] && Canonical(merged, Elems(joined))
    ensures MergedBut(a, b, rest - {group}, r[group := merged])
  {
    ElemsConcat(At(r, group), b[group]);
  }

  lemma MergedButNone(a: map<string, seq<Subject>>, b: map<string, seq<Subject>>, r: map<string, seq<Subject>>)
    ensures MergedBut(a, b, {}, r) ==> MergeOf(a, b, r)
    ensures MergedBut(a, b, b.Keys, a)
  {
    if MergedBut(a, b, {}, r) {
      assert r.Keys == a.Keys + b.Keys;
    }
  }

  /**
   a.DeepCopy().MergeInto(b): the frame is empty, so neither map, nor any array behind them, is written, even where the
   slices of `a` have room that they share with `b`.
   */
  method MergedCopy(a: GroupMap, b: GroupMap) returns (r: GroupMap)
    requires a.Valid() && b.Valid()
    ensures fresh(r) && r.Valid() && fresh(r.Repr)
    ensures MergeOf(a.Contents(), b.Contents(), r.Contents())
  {
    var c := a.DeepCopy();
    c.FullIsUnshared(b);
    ghost var mine, theirs := a.Contents(), b.Contents();
    assert a.Shows(mine) && b.Shows(theirs);
    r := c.MergeInto(b);
    a.ContentsShown(mine);
    b.ContentsShown(theirs);
  }

  /** Why the copy matters: with room that is shared, appending to one slice changes what the other shows. */
  method SharedRoomIsOverwritten(x: Subject, y: Subject, z: Subject) returns (before: seq<Subject>, after: seq<Subject>)
    requires y != z
    ensures before == [x, y] && after == [x, z]
  {
    var data := new Subject[2](i => if i == 0 then x else y);
    var short, long := Slice(data, 0, 1, 2), Whole(data);
    before := long.View();
    var joined := Append(short, [z]);
    assert joined.View()[1] == z;
    after := long.View();
  }

  // ---- Merging at run time against merging once ----

  /**
   Members of the runtime merge against the merged map: the same set, and not found where the map shows nobody. The
   sequences of Names agree exactly when the group occurs in the second map or was already normalised in the first; the
   static merge leaves the other groups of the receiver as they were.
   */
  lemma RuntimeMergeRefinesStatic(a: map<string, seq<Subject>>, b: map<string, seq<Subject>>,
                                  r: map<string, seq<Subject>>, group: string, ans: Answer)
    requires MergeOf(a, b, r) && Allows(Merged([Static(a), Static(b)]), group, ans)
    ensures At(r, group) == [] <==> ans.Failed?
    ensures ans.Failed? ==> IsNotFound(ans.err)
    ensures ans.Found? ==> Elems(ans.members) == Elems(r[group])
    ensures ans.Found? ==>
              (Names(ans.members) == Names(r[group]) <==> group in b || Canonical(a[group], Elems(a[group])))
    ensures ans.Found? && NamesDistinct(Elems(r[group])) ==>
              (ans.members == r[group] <==> group in b || Canonical(a[group], Elems(a[group])))
  {
    TwoMapsMerged(a, b, group);
    var all := Elems(At(a, group)) + Elems(At(b, group));
    assert Elems(At(r, group)) == all;
    if At(r, group) != [] {
      assert At(r, group)[0] in all;
      var s, t := ans.members, r[group];
      if group in b {
        CanonicalNames(s, t, all);
      } else if Canonical(t, Elems(t)) {
        CanonicalNames(s, t, all);
      } else if Names(s) == Names(t) {
        SameNamesCanonical(s, t);
      }
      if NamesDistinct(all) && Canonical(t, all) {
        CanonicalUnique(s, t, all);
      }
    }
  }

  /**
   Exactly when the two merges match list for list, whatever walks are taken: distinct members have distinct Names, and
   the group occurs in the second map or was already normalised in the first.
   */
  lemma RuntimeMatchesStaticIff(a: map<string, seq<Subject>>, b: map<string, seq<Subject>>,
                                r: map<string, seq<Subject>>, group: string)
    requires MergeOf(a, b, r) && At(r, group) != []
    ensures (forall ans :: Allows(Merged([Static(a), Static(b)]), group, ans) ==>
                             ans.Found? && ans.members == r[group])
            <==> NamesDistinct(Elems(r[group])) && (group in b || Canonical(a[group], Elems(a[group])))
  {
    var all := Elems(r[group]);
    var s, t := TwoCanonical(all);
    AnswersAre(a, b, r, group);
    assert Allows(Merged([Static(a), Static(b)]), group, Found(s));
    assert Allows(Merged([Static(a), Static(b)]), group, Found(t));
    if NamesDistinct(all) {
      forall ans | Allows(Merged([Static(a), Static(b)]), group, ans)
        ensures ans.members == r[group] <==> group in b || Canonical(a[group], Elems(a[group]))
      {
        RuntimeMergeRefinesStatic(a, b, r, group, ans);
      }
    }
  }

  lemma AnswersAre(a: map<string, seq<Subject>>, b: map<string, seq<Subject>>, r: map<string, seq<Subject>>,
                   group: string)
    requires MergeOf(a, b, r) && At(r, group) != []
    ensures forall ans :: Allows(Merged([Static(a), Static(b)]), group, ans) <==>
                          ans.Found? && Canonical(ans.members, Elems(r[group]))
  {
    TwoMapsMerged(a, b, group);
    assert r[group][0] in Elems(r[group]);
    assert Elems(r[group]) == Elems(At(a, group)) + Elems(At(b, group));
  }

  lemma TwoMapsMerged(a: map<string, seq<Subject>>, b: map<string, seq<Subject>>, group: string)
    ensures Lookup(Merged([Static(a), Static(b)]), group) ==
            var all := Elems(At(a, group)) + Elems(At(b, group));
            if all == {} then Fails(NoMembers(group)) else Members(all)
    ensures IsNotFound(NoMembers(group))
  {
    var gs := [Static(a), Static(b)];
    LookupAllMeaning(gs, group, {});
    WrapKeepsCause("no members in " + group, NotFound);
    WrapKeepsCause("subjects in group " + group, NotFound);
    assert gs[1..] == [Static(b)] && gs[1..][1..] == [];
    assert FirstHard(gs[1..][1..], group) == None && Union(gs[1..][1..], group) == {};
    assert FirstHard(gs, group) == None;
    assert Union(gs[1..], group) == Elems(At(b, group));
    assert Union(gs, group) == Elems(At(a, group)) + Elems(At(b, group));
  }

  lemma SameNamesCanonical(s: seq<Subject>, t: seq<Subject>)
    requires Canonical(s, Elems(t)) && Names(s) == Names(t)
    ensures Canonical(t, Elems(t))
  {
    assert |s| == |Names(s)| == |Names(t)| == |t|;
    DistinctSize(s);
    DistinctSize(t);
    forall i, j | 0 <= i < j < |t|
      ensures !Text.Less(t[j].name, t[i].name)
    {
      assert Names(s)[i] == Names(t)[i] && Names(s)[j] == Names(t)[j];
    }
  }

  /** The case the table of tests does not cover: an unsorted group that only the receiver has. */
  lemma UnsortedReceiverDiffers(ans: Answer)
    requires var u0, u1 := UserSubject("user0"), UserSubject("user1");
             Allows(Merged([Static(map["group" := [u1, u0]]), Static(map[])]), "group", ans)
    ensures var u0, u1 := UserSubject("user0"), UserSubject("user1");
            MergeOf(map["group" := [u1, u0]], map[], map["group" := [u1, u0]]) && ans.Found? && ans.members != [u1, u0]
  {
    var u0, u1 := UserSubject("user0"), UserSubject("user1");
    var a, b: map<string, seq<Subject>> := map["group" := [u1, u0]], map[];
    RuntimeMergeRefinesStatic(a, b, a, "group", ans);
    LastDiffers();
    assert !Sorted([u1, u0]) by {
      assert [u1, u0][0] == u1 && [u1, u0][1] == u0;
    }
  }

  lemma LastDiffers()
    ensures Text.Less("user0", "user1")
  {
    var a, b := "user0", "user1";
    assert a[1..] == "ser0" && b[1..] == "ser1";
    assert a[1..][1..] == "er0" && b[1..][1..] == "er1";
    assert a[1..][1..][1..] == "r0" && b[1..][1..][1..] == "r1";
    assert a[1..][1..][1..][1..] == "0" && b[1..][1..][1..][1..] == "1";
    assert Text.Less("r0", "r1");
    assert Text.Less("er0", "er1");
    assert Text.Less("ser0", "ser1");
  }
}
