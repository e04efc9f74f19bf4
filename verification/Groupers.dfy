/**
 Groupers (pkg/groups/grouper.go, merged.go, gsuite/grouper.go and the lookup of groupmap.go).

 `Lookup` says what a grouper means: a set of subjects or an error. The list that carries the set depends on map walks,
 so the methods are held to `Allows`, which admits every list the code can return.
 */
module Groupers {
  import opened Errors
  import opened Subjects

  /** How the request context stands when a page request has failed. */
  datatype Context = Live | DeadlineExceeded | ContextCanceled

  datatype Ending = Complete | Broken(status404: bool, ctx: Context)

  /** One call of the directory API: the pages that arrived, and how the paging ended. */
  datatype Fetch = Fetch(matches: bool, clientOk: bool, pages: seq<seq<string>>, ending: Ending)

  datatype Answer = Found(members: seq<Subject>) | Failed(err: Error)

  /** `Stub` is any other implementation of the interface, with any answers and any errors. */
  datatype Grouper =
    | Static(gm: map<string, seq<Subject>>)
    | Empty
    | GSuite(calls: string -> Fetch)
    | Stub(answers: string -> Answer)
    | Merged(groupers: seq<Grouper>)

  datatype Outcome = Members(subjects: set<Subject>) | Fails(err: Error)

  const FETCH_FAILED := "unknown error fetching group members"

  function NoMembers(group: string): Error {
    Wrap("no members in " + group, NotFound)
  }

  function UserSubject(email: string): Subject {
    Subject("User", "rbac.authorization.k8s.io", email, "")
  }

  function Users(pages: seq<seq<string>>): set<Subject> {
    set p, i | 0 <= p < |pages| && 0 <= i < |pages[p]| :: UserSubject(pages[p][i])
  }

  function Lookup(g: Grouper, group: string): Outcome
    decreases g
  {
    match g
    case Static(gm) =>
      if group in gm then Members(Elems(gm[group])) else Fails(Wrap("subjects in group " + group, NotFound))
    case Empty => Fails(NotFound)
    case Stub(answers) =>
      (match answers(group)
       case Found(members) => Members(Elems(members))
       case Failed(err) => Fails(err))
    case GSuite(calls) => FetchOutcome(calls(group))
    case Merged(gs) => LookupAll(gs, group, {})
  }

  function FetchOutcome(call: Fetch): Outcome {
    if !call.matches then Fails(Wrap("ignored for gsuite lookup", NotFound))
    else if !call.clientOk then Fails(Wrap("unable to determine group members", Unknown))
    else match call.ending
      case Complete => Members(Users(call.pages))
      case Broken(status404, ctx) =>
        if status404 then Fails(Wrap("gsuite does not have group", NotFound))
        else if ctx == DeadlineExceeded then Fails(Wrap("timeout calling gsuite api", Timeout))
        else if ctx == ContextCanceled then Fails(Wrap("the context canceled the call to gsuite", Canceled))
        else Fails(Wrap("error retrieving group members", Unknown))
  }

  /** The loop of Merged.Members: `uniq` has been collected, `gs` is still to be asked. */
  function LookupAll(gs: seq<Grouper>, group: string, uniq: set<Subject>): Outcome
    decreases gs
  {
    if gs == [] then (if uniq == {} then Fails(NoMembers(group)) else Members(uniq))
    else match Lookup(gs[0], group)
      case Members(subjects) => LookupAll(gs[1..], group, uniq + subjects)
      case Fails(err) =>
        if IsNotFound(err) then LookupAll(gs[1..], group, uniq) else Fails(Wrap(FETCH_FAILED, err))
  }

  /** The answers the code can give: errors are fixed, lists are free up to the order of equal Names. */
  ghost predicate Allows(g: Grouper, group: string, ans: Answer) {
    match Lookup(g, group)
    case Fails(err) => ans == Failed(err)
    case Members(subjects) =>
      && ans.Found?
      && Elems(ans.members) == subjects
      && (g.Static? ==> group in g.gm && ans.members == g.gm[group])
      && (g.Merged? || g.GSuite? ==> Canonical(ans.members, subjects))
  }

  // ---- The code ----

  method GSuiteMembers(call: Fetch) returns (ans: Answer)
    ensures match FetchOutcome(call)
            case Fails(err) => ans == Failed(err)
            case Members(subjects) => ans.Found? && Canonical(ans.members, subjects)
  {
    if !call.matches {
      return Failed(Wrap("ignored for gsuite lookup", NotFound));
    }
    if !call.clientOk {
      return Failed(Wrap("unable to determine group members", Unknown));
    }
    var subjects := [];
    for p := 0 to |call.pages|
      invariant Elems(subjects) == Users(call.pages[..p])
    {
      var page := call.pages[p];
      for i := 0 to |page|
        invariant Elems(subjects) == Users(call.pages[..p]) + Users([page[..i]])
      {
        ElemsConcat(subjects, [UserSubject(page[i])]);
        UsersSnoc(page, i);
        subjects := subjects + [UserSubject(page[i])];
      }
      assert page[..|page|] == page;
      UsersConcat(call.pages[..p], [page]);
      assert call.pages[..p + 1] == call.pages[..p] + [page];
    }
    assert call.pages[..|call.pages|] == call.pages;
    match call.ending {
      case Broken(status404, ctx) =>
        if status404 {
          return Failed(Wrap("gsuite does not have group", NotFound));
        } else if ctx == DeadlineExceeded {
          return Failed(Wrap("timeout calling gsuite api", Timeout));
        } else if ctx == ContextCanceled {
          return Failed(Wrap("the context canceled the call to gsuite", Canceled));
        } else {
          return Failed(Wrap("error retrieving group members", Unknown));
        }
      case Complete =>
        var normal := Normalize(subjects);
        ans := Found(normal[..]);
    }
  }

  lemma UsersConcat(p: seq<seq<string>>, q: seq<seq<string>>)
    ensures Users(p + q) == Users(p) + Users(q)
  {
    forall x
      ensures x in Users(p + q) <==> x in Users(p) || x in Users(q)
    {
      if x in Users(p) {
        var k, i :| 0 <= k < |p| && 0 <= i < |p[k]| && x == UserSubject(p[k][i]);
        assert (p + q)[k] == p[k];
      }
      if x in Users(q) {
        var k, i :| 0 <= k < |q| && 0 <= i < |q[k]| && x == UserSubject(q[k][i]);
        assert (p + q)[|p| + k] == q[k];
      }
    }
  }

  lemma UsersSnoc(page: seq<string>, i: nat)
    requires i < |page|
    ensures Users([page[..i + 1]]) == Users([page[..i]]) + {UserSubject(page[i])}
  {
    forall x | x in Users([page[..i]]) + {UserSubject(page[i])}
      ensures x in Users([page[..i + 1]])
    {
      if x in Users([page[..i]]) {
        var p, k :| 0 <= p < 1 && 0 <= k < i && x == UserSubject([page[..i]][p][k]);
        assert x == UserSubject([page[..i + 1]][0][k]);
      } else {
        assert x == UserSubject([page[..i + 1]][0][i]);
      }
    }
    forall x | x in Users([page[..i + 1]])
      ensures x in Users([page[..i]]) + {UserSubject(page[i])}
    {
      var p, k :| 0 <= p < 1 && 0 <= k < i + 1 && x == UserSubject([page[..i + 1]][p][k]);
      assert k < i ==> x == UserSubject([page[..i]][0][k]);
    }
  }

  method MembersOf(g: Grouper, group: string) returns (ans: Answer)
    ensures Allows(g, group, ans)
    decreases g
  {
    match g {
      case Static(gm) =>
        if group !in gm {
          return Failed(Wrap("subjects in group " + group, NotFound));
        }
        ans := Found(gm[group]);
      case Empty =>
        ans := Failed(NotFound);
      case Stub(answers) =>
        ans := answers(group);
      case GSuite(calls) =>
        ans := GSuiteMembers(calls(group));
      case Merged(gs) =>
        ans := MergedMembers(gs, group);
    }
  }

  /** Merged.Members: union of the members, stopping at the first error other than not-found. */
  method MergedMembers(gs: seq<Grouper>, group: string) returns (ans: Answer)
    ensures match LookupAll(gs, group, {})
            case Fails(err) => ans == Failed(err)
            case Members(subjects) => ans.Found? && Canonical(ans.members, subjects) && subjects != {}
    decreases gs
  {
    var uniq: set<Subject> := {};
    for i := 0 to |gs|
      invariant LookupAll(gs[i..], group, uniq) == LookupAll(gs, group, {})
    {
      assert gs[i..][0] == gs[i] && gs[i..][1..] == gs[i + 1..];
      var part := MembersOf(gs[i], group);
      match part {
        case Failed(err) =>
          if !IsNotFound(err) {
            return Failed(Wrap(FETCH_FAILED, err));
          }
        case Found(subjects) =>
          ghost var before := uniq;
          for k := 0 to |subjects|
            invariant uniq == before + Elems(subjects[..k])
          {
            assert subjects[..k + 1] == subjects[..k] + [subjects[k]];
            uniq := uniq + {subjects[k]};
          }
          assert subjects[..|subjects|] == subjects;
      }
    }
    if uniq == {} {
      return Failed(NoMembers(group));
    }
    var normal := NormalizeUniq(uniq);
    ans := Found(normal[..]);
  }
}
