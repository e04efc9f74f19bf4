/** Laws of merging (pkg/groups/merged.go) and totality of the error taxonomy (pkg/groups/grouper.go). */
module MergeAlgebra {
  import opened Errors
  import opened Options
  import opened Subjects
  import opened Groupers

  /** An outcome that stops a merge: an error other than not-found. */
  predicate Hard(o: Outcome) {
    o.Fails? && !IsNotFound(o.err)
  }

  function Contribution(o: Outcome): set<Subject> {
    match o
    case Members(subjects) => subjects
    case Fails(_) => {}
  }

  /** Equal for a caller that treats "no such group" and "no members" alike and reads errors by their cause. */
  predicate Same(o: Outcome, o': Outcome) {
    && Contribution(o) == Contribution(o')
    && (Hard(o) <==> Hard(o'))
    && (Hard(o) ==> Cause(o.err) == Cause(o'.err))
  }

  function FirstHard(gs: seq<Grouper>, group: string): Option<Error> {
    if gs == [] then None
    else
      var o := Lookup(gs[0], group);
      if Hard(o) then Some(o.err) else FirstHard(gs[1..], group)
  }

  function Union(gs: seq<Grouper>, group: string): set<Subject> {
    if gs == [] then {} else Contribution(Lookup(gs[0], group)) + Union(gs[1..], group)
  }

  /** The error that decides a merge is the first one, in argument order, that is not a not-found. */
  lemma {:induction false} FirstHardIsOneOf(gs: seq<Grouper>, group: string)
    ensures match FirstHard(gs, group)
            case Some(err) =>
              && !IsNotFound(err)
              && exists i :: 0 <= i < |gs| && Lookup(gs[i], group) == Fails(err)
                             && forall j :: 0 <= j < i ==> !Hard(Lookup(gs[j], group))
            case None => forall i :: 0 <= i < |gs| ==> !Hard(Lookup(gs[i], group))
  {
    if gs != [] && !Hard(Lookup(gs[0], group)) {
      FirstHardIsOneOf(gs[1..], group);
      if FirstHard(gs, group).Some? {
        var i :| 0 <= i < |gs[1..]| && Lookup(gs[1..][i], group) == Fails(FirstHard(gs, group).value)
          && forall j :: 0 <= j < i ==> !Hard(Lookup(gs[1..][j], group));
        assert Lookup(gs[i + 1], group) == Fails(FirstHard(gs, group).value);
        assert forall j :: 0 < j < i + 1 ==> gs[j] == gs[1..][j - 1];
      } else {
        assert forall i :: 0 < i < |gs| ==> gs[i] == gs[1..][i - 1];
      }
    }
  }

  lemma {:induction false} UnionMembers(gs: seq<Grouper>, group: string, x: Subject)
    ensures x in Union(gs, group) <==> exists i :: 0 <= i < |gs| && x in Contribution(Lookup(gs[i], group))
  {
    if gs != [] {
      UnionMembers(gs[1..], group, x);
      assert forall i :: 0 < i < |gs| ==> gs[i] == gs[1..][i - 1];
      if i :| 0 <= i < |gs[1..]| && x in Contribution(Lookup(gs[1..][i], group)) {
        assert x in Contribution(Lookup(gs[i + 1], group));
      }
    }
  }

  /** Whoever a merge returns, some grouper has returned, and the other way round. */
  lemma MergedIsUnion(gs: seq<Grouper>, group: string, ans: Answer, x: Subject)
    requires Allows(Merged(gs), group, ans) && ans.Found?
    ensures x in ans.members <==>
            exists i :: 0 <= i < |gs| && Lookup(gs[i], group).Members? && x in Lookup(gs[i], group).subjects
  {
    LookupAllMeaning(gs, group, {});
    UnionMembers(gs, group, x);
    assert x in ans.members <==> x in Elems(ans.members);
    assert forall i :: 0 <= i < |gs| ==>
        (x in Contribution(Lookup(gs[i], group)) <==>
         Lookup(gs[i], group).Members? && x in Lookup(gs[i], group).subjects);
  }

  lemma WrapKeepsCause(msg: string, e: Error)
    ensures Cause(Wrap(msg, e)) == Cause(e)
  {
  }

  lemma {:induction false} LookupAllMeaning(gs: seq<Grouper>, group: string, uniq: set<Subject>)
    ensures LookupAll(gs, group, uniq) ==
            match FirstHard(gs, group)
            case Some(err) => Fails(Wrap(FETCH_FAILED, err))
            case None =>
              if uniq + Union(gs, group) == {} then Fails(NoMembers(group)) else Members(uniq + Union(gs, group))
  {
    if gs == [] {
      assert uniq + Union(gs, group) == uniq;
    } else {
      var now := Contribution(Lookup(gs[0], group));
      LookupAllMeaning(gs[1..], group, uniq + now);
      assert uniq + now + Union(gs[1..], group) == uniq + Union(gs, group);
      assert uniq + {} == uniq;
    }
  }

  /**
   A merge fails for real exactly when one of its groupers does, with the cause of the first that does; otherwise it
   returns the union, and it never succeeds with nobody.
   */
  lemma MergedMeaning(gs: seq<Grouper>, group: string)
    ensures var o := Lookup(Merged(gs), group);
            && (Hard(o) <==> exists i :: 0 <= i < |gs| && Hard(Lookup(gs[i], group)))
            && (Hard(o) <==> FirstHard(gs, group).Some?)
            && (Hard(o) ==> Cause(o.err) == Cause(FirstHard(gs, group).value))
            && (!Hard(o) ==> Contribution(o) == Union(gs, group))
            && (!Hard(o) && Union(gs, group) == {} ==> o == Fails(NoMembers(group)))
            && (o.Members? ==> o.subjects != {})
  {
    LookupAllMeaning(gs, group, {});
    FirstHardIsOneOf(gs, group);
    WrapKeepsCause("no members in " + group, NotFound);
    assert {} + Union(gs, group) == Union(gs, group);
    if FirstHard(gs, group).Some? {
      WrapKeepsCause(FETCH_FAILED, FirstHard(gs, group).value);
      var i :| 0 <= i < |gs| && Lookup(gs[i], group) == Fails(FirstHard(gs, group).value);
      assert Hard(Lookup(gs[i], group));
    }
  }

  /**
   A merge stops at the first grouper that does not know its members for now, even if others found some: its own error
   is the one below, wrapped once more.
   */
  lemma UnknownStopsMerge(gs: seq<Grouper>, group: string, i: nat, msgs: seq<string>, base: Error)
    requires i < |gs| && Lookup(gs[i], group) == Fails(Wrapped(msgs, base))
    requires base == Timeout || base == Canceled || base == Unknown
    requires forall j :: 0 <= j < i ==>
               Lookup(gs[j], group).Members? || exists ms :: Lookup(gs[j], group) == Fails(Wrapped(ms, NotFound))
    ensures Lookup(Merged(gs), group) == Fails(Wrapped([FETCH_FAILED] + msgs, base))
  {
    WrappedMeans(msgs, base);
    forall j | 0 <= j < i
      ensures !Hard(Lookup(gs[j], group))
    {
      if ms :| Lookup(gs[j], group) == Fails(Wrapped(ms, NotFound)) {
        WrappedMeans(ms, NotFound);
      }
    }
    FirstHardAt(gs, group, i);
    LookupAllMeaning(gs, group, {});
    assert ([FETCH_FAILED] + msgs)[1..] == msgs;
  }

  lemma {:induction false} FirstHardAt(gs: seq<Grouper>, group: string, i: nat)
    requires i < |gs| && Hard(Lookup(gs[i], group)) && forall j :: 0 <= j < i ==> !Hard(Lookup(gs[j], group))
    ensures FirstHard(gs, group) == Some(Lookup(gs[i], group).err)
  {
    if i > 0 {
      assert gs[1..][i - 1] == gs[i];
      assert forall j :: 0 <= j < i - 1 ==> gs[1..][j] == gs[j + 1];
      FirstHardAt(gs[1..], group, i - 1);
    }
  }

  /**
   Only the set of groupers matters: neither their order nor repetitions change members or the presence of an error.
   */
  lemma MergeOrderAndRepetition(gs: seq<Grouper>, hs: seq<Grouper>, group: string)
    requires forall i :: 0 <= i < |gs| ==> gs[i] in hs
    requires forall j :: 0 <= j < |hs| ==> hs[j] in gs
    ensures Hard(Lookup(Merged(gs), group)) <==> Hard(Lookup(Merged(hs), group))
    ensures !Hard(Lookup(Merged(gs), group)) ==> Lookup(Merged(gs), group) == Lookup(Merged(hs), group)
  {
    MergedMeaning(gs, group);
    MergedMeaning(hs, group);
    MembersOfSublist(gs, hs, group);
    MembersOfSublist(hs, gs, group);
  }

  lemma MembersOfSublist(gs: seq<Grouper>, hs: seq<Grouper>, group: string)
    requires forall i :: 0 <= i < |gs| ==> gs[i] in hs
    ensures Union(gs, group) <= Union(hs, group)
    ensures FirstHard(gs, group).Some? ==> FirstHard(hs, group).Some?
  {
    forall x | x in Union(gs, group)
      ensures x in Union(hs, group)
    {
      UnionMembers(gs, group, x);
      UnionMembers(hs, group, x);
      var i :| 0 <= i < |gs| && x in Contribution(Lookup(gs[i], group));
      assert gs[i] in hs;
    }
    FirstHardIsOneOf(gs, group);
    FirstHardIsOneOf(hs, group);
    if FirstHard(gs, group).Some? {
      var i :| 0 <= i < |gs| && Lookup(gs[i], group) == Fails(FirstHard(gs, group).value);
      var j :| 0 <= j < |hs| && hs[j] == gs[i];
      assert Hard(Lookup(hs[j], group));
    }
  }

  lemma {:induction false} Concatenation(gs: seq<Grouper>, hs: seq<Grouper>, group: string)
    ensures Union(gs + hs, group) == Union(gs, group) + Union(hs, group)
    ensures FirstHard(gs + hs, group) ==
            if FirstHard(gs, group).Some? then FirstHard(gs, group) else FirstHard(hs, group)
  {
    if gs == [] {
      assert gs + hs == hs;
    } else {
      Concatenation(gs[1..], hs, group);
      assert (gs + hs)[1..] == gs[1..] + hs;
    }
  }

  /** The not-found grouper can be inserted anywhere without being noticed. */
  lemma EmptyIsIdentity(gs: seq<Grouper>, hs: seq<Grouper>, group: string)
    ensures Lookup(Merged(gs + [Empty] + hs), group) == Lookup(Merged(gs + hs), group)
  {
    assert gs + [Empty] + hs == gs + ([Empty] + hs);
    assert ([Empty] + hs)[1..] == hs;
    Concatenation(gs, hs, group);
    Concatenation(gs, [Empty] + hs, group);
    LookupAllMeaning(gs + [Empty] + hs, group, {});
    LookupAllMeaning(gs + hs, group, {});
  }

  lemma MergeOfOne(g: Grouper, group: string)
    ensures Same(Lookup(Merged([g]), group), Lookup(g, group))
  {
    MergedMeaning([g], group);
    assert [g][1..] == [] && [g][0] == g;
    assert FirstHard([g][1..], group) == None && Union([g][1..], group) == {};
  }

  /** The groupers at the leaves of a nest of merges, from left to right. */
  function Leaves(g: Grouper): seq<Grouper>
    decreases g
  {
    if g.Merged? then LeavesOf(g.groupers) else [g]
  }

  function LeavesOf(gs: seq<Grouper>): seq<Grouper>
    decreases gs
  {
    if gs == [] then [] else Leaves(gs[0]) + LeavesOf(gs[1..])
  }

  /** Flattening a nest of merges to any depth changes no member and no cause. */
  lemma {:induction false} Flatten(g: Grouper, group: string)
    ensures Same(Lookup(g, group), Lookup(Merged(Leaves(g)), group))
    decreases g
  {
    if g.Merged? {
      FlattenAll(g.groupers, group);
      MergedMeaning(g.groupers, group);
      MergedMeaning(LeavesOf(g.groupers), group);
    } else {
      MergeOfOne(g, group);
    }
  }

  lemma {:induction false} FlattenAll(gs: seq<Grouper>, group: string)
    ensures FirstHard(gs, group).Some? <==> FirstHard(LeavesOf(gs), group).Some?
    ensures FirstHard(gs, group).Some? ==>
              Cause(FirstHard(gs, group).value) == Cause(FirstHard(LeavesOf(gs), group).value)
    ensures FirstHard(gs, group).None? ==> Union(gs, group) == Union(LeavesOf(gs), group)
    decreases gs
  {
    if gs != [] {
      Flatten(gs[0], group);
      MergedMeaning(Leaves(gs[0]), group);
      FlattenAll(gs[1..], group);
      Concatenation(Leaves(gs[0]), LeavesOf(gs[1..]), group);
    }
  }

  /** Built from the groupers of this repository alone, to any finite depth. */
  predicate InRepository(g: Grouper)
    decreases g
  {
    match g
    case Stub(_) => false
    case Merged(gs) => forall i :: 0 <= i < |gs| ==> InRepository(gs[i])
    case _ => true
  }

  /** Every error of such a grouper is of exactly one of the two kinds the handlers know. */
  lemma {:induction false} ErrorsAreClassified(g: Grouper, group: string)
    requires InRepository(g)
    ensures match Lookup(g, group)
            case Fails(err) => IsNotFound(err) != IsUnknownMemberships(err)
            case Members(_) => true
    decreases g
  {
    match g
    case Merged(gs) =>
      MergedMeaning(gs, group);
      FirstHardIsOneOf(gs, group);
      if FirstHard(gs, group).Some? {
        var err := FirstHard(gs, group).value;
        var i :| 0 <= i < |gs| && Lookup(gs[i], group) == Fails(err);
        ErrorsAreClassified(gs[i], group);
      }
    case Static(_) =>
      WrapKeepsCause("subjects in group " + group, NotFound);
    case _ =>
  }

  /** `email` stands on one of the pages. */
  predicate OnPages(pages: seq<seq<string>>, email: string) {
    exists p, i :: 0 <= p < |pages| && 0 <= i < |pages[p]| && pages[p][i] == email
  }

  /**
   The directory grouper succeeds only on a complete page sequence, and then with a user for everyone on it and nobody
   else; every failure has the sentinel of its first applicable reason.
   */
  lemma GSuiteAllOrNothing(calls: string -> Fetch, group: string, ans: Answer)
    requires Allows(GSuite(calls), group, ans)
    ensures var call := calls(group);
            && (ans.Found? <==> call.matches && call.clientOk && call.ending == Complete)
            && (ans.Failed? ==> ans.err.Wrap? && ans.err.inner ==
                                if !call.matches then NotFound
                                else if !call.clientOk then Unknown
                                else if call.ending.status404 then NotFound
                                else match call.ending.ctx
                                  case DeadlineExceeded => Timeout
                                  case ContextCanceled => Canceled
                                  case Live => Unknown)
    ensures ans.Found? ==> forall x :: x in ans.members <==>
                             x == Subject("User", "rbac.authorization.k8s.io", x.name, "")
                             && OnPages(calls(group).pages, x.name)
  {
    var pages := calls(group).pages;
    if ans.Found? {
      assert Elems(ans.members) == Users(pages);
      forall x
        ensures x in ans.members <==>
                x == Subject("User", "rbac.authorization.k8s.io", x.name, "") && OnPages(pages, x.name)
      {
        assert x in ans.members <==> x in Users(pages);
        if p, i :| 0 <= p < |pages| && 0 <= i < |pages[p]| && pages[p][i] == x.name {
          assert UserSubject(pages[p][i]) in Users(pages);
        }
      }
    }
  }
}
