/**
 The groups of one config: static memberships merged with an upstream (pkg/controller/controller.go, resolveGroups).
 */
module Resolve {
  import opened Errors
  import opened Options
  import opened Subjects
  import opened Groupers
  import opened MergeAlgebra

  datatype Membership = Membership(group: string, subjects: seq<Subject>)

  /** Everyone any membership entry lists for `group`. */
  function StaticMembers(ms: seq<Membership>, group: string): set<Subject> {
    set i, k | 0 <= i < |ms| && ms[i].group == group && 0 <= k < |ms[i].subjects| :: ms[i].subjects[k]
  }

  lemma DeclaredIff(ms: seq<Membership>, group: string, x: Subject)
    ensures x in StaticMembers(ms, group) <==> exists m :: m in ms && m.group == group && x in m.subjects
  {
    if x in StaticMembers(ms, group) {
      var i, k :| 0 <= i < |ms| && ms[i].group == group && 0 <= k < |ms[i].subjects| && x == ms[i].subjects[k];
      assert ms[i] in ms;
    }
    if m :| m in ms && m.group == group && x in m.subjects {
      var i :| 0 <= i < |ms| && ms[i] == m;
      var k :| 0 <= k < |ms[i].subjects| && ms[i].subjects[k] == x;
    }
  }

  /** The group map of the declarations, up to the walks taken while normalising: no group without members. */
  ghost predicate Declares(ms: seq<Membership>, gm: map<string, seq<Subject>>) {
    && (forall group :: group in gm <==> StaticMembers(ms, group) != {})
    && (forall group :: group in gm ==> Canonical(gm[group], StaticMembers(ms, group)))
  }

  function WithUpstream(declared: Grouper, upstream: Option<Grouper>): Grouper {
    if upstream.None? then declared else Merged([declared, upstream.value])
  }

  /** Every answer `gm.Members(group)` can give, stated without the grouper that is built on the way. */
  ghost predicate LookupOf(ms: seq<Membership>, upstream: Option<Grouper>, group: string, ans: Answer) {
    var declared := StaticMembers(ms, group);
    match upstream
    case None =>
      if declared == {} then ans.Failed? && IsNotFound(ans.err)
      else ans.Found? && Canonical(ans.members, declared)
    case Some(up) =>
      var o := Lookup(up, group);
      var all := declared + Contribution(o);
      if Hard(o) then ans.Failed? && Cause(ans.err) == Cause(o.err)
      else if all == {} then ans.Failed? && IsNotFound(ans.err)
      else ans.Found? && Canonical(ans.members, all)
  }

  /**
   A successful lookup is the union of all declarations of the group and the upstream's answer, and is never empty;
   an upstream error other than not-found decides alone, whatever the config declares.
   */
  lemma ResolvedLookup(ms: seq<Membership>, gm: map<string, seq<Subject>>, upstream: Option<Grouper>, group: string,
                       ans: Answer)
    requires Declares(ms, gm) && Allows(WithUpstream(Static(gm), upstream), group, ans)
    ensures LookupOf(ms, upstream, group, ans)
    ensures ans.Found? ==> ans.members != []
  {
    WrapKeepsCause("subjects in group " + group, NotFound);
    if upstream.Some? {
      var gs := [Static(gm), upstream.value];
      MergedMeaning(gs, group);
      assert gs[1..] == [upstream.value] && gs[1..][1..] == [];
      assert FirstHard(gs, group) == FirstHard(gs[1..], group);
      assert Union(gs, group) == Contribution(Lookup(Static(gm), group)) + Union(gs[1..], group);
      assert Union(gs[1..], group) == Contribution(Lookup(upstream.value, group)) + Union(gs[1..][1..], group);
      assert FirstHard(gs[1..][1..], group) == None && Union(gs[1..][1..], group) == {};
      assert Contribution(Lookup(Static(gm), group)) == StaticMembers(ms, group);
      WrapKeepsCause("no members in " + group, NotFound);
    }
  }

  /** An answer of unknown membership is unknown for the config too, even when the config declares members itself. */
  lemma OutageIsNotMasked(ms: seq<Membership>, up: Grouper, group: string, ans: Answer)
    requires LookupOf(ms, Some(up), group, ans)
    requires Lookup(up, group).Fails? && IsUnknownMemberships(Lookup(up, group).err)
    ensures ans.Failed? && IsUnknownMemberships(ans.err)
  {
  }

  /** How often and in which order a group is declared makes no difference. */
  lemma DeclarationOrder(ms: seq<Membership>, ms': seq<Membership>, up: Option<Grouper>, group: string, ans: Answer)
    requires forall m :: m in ms <==> m in ms'
    ensures StaticMembers(ms, group) == StaticMembers(ms', group)
    ensures LookupOf(ms, up, group, ans) <==> LookupOf(ms', up, group, ans)
  {
    StaticMonotone(ms, ms', group);
    StaticMonotone(ms', ms, group);
  }

  lemma StaticMonotone(ms: seq<Membership>, ms': seq<Membership>, group: string)
    requires forall m :: m in ms ==> m in ms'
    ensures StaticMembers(ms, group) <= StaticMembers(ms', group)
  {
    forall x | x in StaticMembers(ms, group)
      ensures x in StaticMembers(ms', group)
    {
      var i, k :| 0 <= i < |ms| && ms[i].group == group && 0 <= k < |ms[i].subjects| && x == ms[i].subjects[k];
      assert ms[i] in ms';
      var j :| 0 <= j < |ms'| && ms'[j] == ms[i];
      assert x == ms'[j].subjects[k];
    }
  }

  // ---- The code ----

  function ListedIn(gm: map<string, seq<Subject>>, group: string): set<Subject> {
    if group in gm then Elems(gm[group]) else {}
  }

  lemma StaticSnoc(ms: seq<Membership>, i: nat, k: nat, group: string)
    requires i < |ms| && k <= |ms[i].subjects|
    ensures StaticMembers(ms[..i] + [ms[i].(subjects := ms[i].subjects[..k])], group)
            == StaticMembers(ms[..i], group) + if ms[i].group == group then Elems(ms[i].subjects[..k]) else {}
  {
    var part := ms[i].(subjects := ms[i].subjects[..k]);
    var ms' := ms[..i] + [part];
    forall x | x in StaticMembers(ms[..i], group)
      ensures x in StaticMembers(ms', group)
    {
      var p, q :| 0 <= p < i && ms[..i][p].group == group && 0 <= q < |ms[..i][p].subjects|
        && x == ms[..i][p].subjects[q];
      assert ms'[p] == ms[..i][p];
    }
    if part.group == group {
      forall x | x in part.subjects
        ensures x in StaticMembers(ms', group)
      {
        var q :| 0 <= q < |part.subjects| && part.subjects[q] == x;
        assert ms'[i].subjects[q] == x;
      }
    }
    forall x | x in StaticMembers(ms', group)
      ensures x in StaticMembers(ms[..i], group) + if part.group == group then Elems(part.subjects) else {}
    {
      var p, q :| 0 <= p < |ms'| && ms'[p].group == group && 0 <= q < |ms'[p].subjects| && x == ms'[p].subjects[q];
      if p < i {
        assert ms'[p] == ms[..i][p];
      }
    }
  }

  method ResolveGroups(ms: seq<Membership>, upstream: Option<Grouper>) returns (g: Grouper)
    ensures exists gm :: Declares(ms, gm) && g == WithUpstream(Static(gm), upstream)
  {
    var gm := StaticGroups(ms);
    if upstream.None? {
      g := Static(gm);
    } else {
      g := Merged([Static(gm), upstream.value]);
    }
  }

  /** The group map that resolveGroups fills and then normalises group by group. */
  method StaticGroups(ms: seq<Membership>) returns (gm: map<string, seq<Subject>>)
    ensures Declares(ms, gm)
  {
    gm := Collect(ms);
    gm := NormalizeAll(ms, gm);
  }

  method Collect(ms: seq<Membership>) returns (gm: map<string, seq<Subject>>)
    ensures forall group :: ListedIn(gm, group) == StaticMembers(ms, group)
    ensures forall group :: group in gm ==> gm[group] != []
  {
    gm := map[];
    for i := 0 to |ms|
      invariant forall group :: ListedIn(gm, group) == StaticMembers(ms[..i], group)
      invariant forall group :: group in gm ==> gm[group] != []
    {
      var m := ms[i];
      ghost var before := gm;
      for k := 0 to |m.subjects|
        invariant forall group :: ListedIn(gm, group) ==
                    ListedIn(before, group) + if group == m.group then Elems(m.subjects[..k]) else {}
        invariant forall group :: group in gm ==> gm[group] != []
      {
        var prior := if m.group in gm then gm[m.group] else [];
        ElemsConcat(prior, [m.subjects[k]]);
        ElemsConcat(m.subjects[..k], [m.subjects[k]]);
        assert m.subjects[..k + 1] == m.subjects[..k] + [m.subjects[k]];
        gm := gm[m.group := prior + [m.subjects[k]]];
      }
      assert m.subjects[..|m.subjects|] == m.subjects;
      assert ms[..i + 1] == ms[..i] + [m] && m.(subjects := m.subjects) == m;
      forall group
        ensures ListedIn(gm, group) == StaticMembers(ms[..i + 1], group)
      {
        StaticSnoc(ms, i, |m.subjects|, group);
      }
    }
    assert ms[..|ms|] == ms;
  }

  method NormalizeAll(ms: seq<Membership>, gm: map<string, seq<Subject>>) returns (r: map<string, seq<Subject>>)
    requires forall group :: ListedIn(gm, group) == StaticMembers(ms, group)
    requires forall group :: group in gm ==> gm[group] != []
    ensures Declares(ms, r)
  {
    r := gm;
    var rest := gm.Keys;
    while rest != {}
      invariant rest <= gm.Keys == r.Keys
      invariant forall group :: group in rest ==> r[group] == gm[group]
      invariant forall group :: group in gm && group !in rest ==> Canonical(r[group], StaticMembers(ms, group))
    {
      var group :| group in rest;
      var normal := Normalize(r[group]);
      r, rest := r[group := normal[..]], rest - {group};
      assert ListedIn(gm, group) == StaticMembers(ms, group);
    }
    forall group
      ensures group in r <==> StaticMembers(ms, group) != {}
    {
      assert ListedIn(gm, group) == StaticMembers(ms, group);
      if group in gm {
        assert gm[group][0] in Elems(gm[group]);
      }
    }
  }
}
