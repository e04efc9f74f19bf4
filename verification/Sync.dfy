/** The layers together: resolving the groups of a config and reconciling it, and what that says about a whole round. */
module Sync {
  import opened Errors
  import opened Options
  import opened Groupers
  import opened MergeAlgebra
  import opened Resolve
  import opened Api
  import opened Reconcile
  import opened PostState
  import opened BindingNames
  import opened Stabilise
  import opened Reports
  import opened Runs

  /**
   The handler with its lookups: the group map is built once, and each binding asks it and the upstream as the upstream
   then is. The round it makes is a genuine one, so everything proved about runs of genuine rounds is proved about it.
   */
  method SyncConfig(c: Controller, cfg: Config, upstream: nat -> Option<Grouper>, faults: Env)
    returns (ok: bool, ghost round: Round)
    modifies c`events, c.server
    ensures Genuine(round) && round.cfg == cfg && round.upstream == upstream && round.cache == c.cache
    ensures round.env == faults.(lookup := round.env.lookup)
    ensures c.server.store == Apply(c.server.rules, Pass(round), old(c.server.store))
    ensures ok == CleanupRuns(cfg, faults)
  {
    var answers := Lookups(cfg, upstream);
    var env := faults.(lookup := (i: nat) => if i < |answers| then answers[i] else Failed(NotFound));
    round := Round(cfg, env, c.cache, upstream);
    ghost var listing;
    ok, listing := c.HandleConfig(cfg, env);
  }

  /** The declarations are resolved once; the upstream joined to them answers as it is when a binding asks. */
  method Lookups(cfg: Config, upstream: nat -> Option<Grouper>) returns (answers: seq<Answer>)
    ensures |answers| == |cfg.bindings|
    ensures forall i :: 0 <= i < |answers| ==>
              LookupOf(cfg.memberships, upstream(i), cfg.bindings[i].group, answers[i])
  {
    answers := [];
    var declared := ResolveGroups(cfg.memberships, None);
    ghost var gm :| Declares(cfg.memberships, gm) && declared == Static(gm);
    for i := 0 to |cfg.bindings|
      invariant |answers| == i
      invariant forall k :: 0 <= k < i ==>
                  LookupOf(cfg.memberships, upstream(k), cfg.bindings[k].group, answers[k])
    {
      var group := cfg.bindings[i].group;
      var ans := MembersOf(WithUpstream(declared, upstream(i)), group);
      ResolvedLookup(cfg.memberships, gm, upstream(i), group, ans);
      answers := answers + [ans];
    }
  }

  /**
   The "has no members" branch of the handlers is never taken. The silent fall-through is taken exactly when the
   upstream fails with an error that is none of the four sentinels, which no grouper of this repository does.
   */
  lemma DeadBranches(r: Round, i: nat, active: set<string>)
    requires Genuine(r) && i < |r.cfg.bindings|
    ensures var b := r.cfg.bindings[i];
            var plan := Decide(r.cfg, b, r.env.lookup(i), active);
            && !plan.Nobody?
            && (plan.Ignored? <==> KindAllowed(r.cfg, b.roleRef.kind) && r.upstream(i).Some?
                                   && Foreign(Lookup(r.upstream(i).value, b.group)))
            && (r.upstream(i).Some? && InRepository(r.upstream(i).value) ==> !plan.Ignored?)
  {
    var group := r.cfg.bindings[i].group;
    assert LookupOf(r.cfg.memberships, r.upstream(i), group, r.env.lookup(i));
    if r.upstream(i).Some? && InRepository(r.upstream(i).value) {
      ErrorsAreClassified(r.upstream(i).value, group);
    }
  }

  predicate Foreign(o: Outcome) {
    o.Fails? && !IsNotFound(o.err) && !IsUnknownMemberships(o.err)
  }

  /**
   Looking a group up again while the upstream stays the same gives the same members, or an error of the same kind.
   */
  lemma LookupsAgree(ms: seq<Membership>, up: Option<Grouper>, group: string, a: Answer, a': Answer)
    requires LookupOf(ms, up, group, a) && LookupOf(ms, up, group, a')
    ensures if a.Found? then SameMembers(a, a')
            else a'.Failed? && Cause(a.err) == Cause(a'.err)
  {
  }

  lemma SameUpstreamSameInputs(r: Round, r': Round)
    requires Genuine(r) && Genuine(r') && r.cfg == r'.cfg
    requires forall i :: 0 <= i < |r.cfg.bindings| ==> r.upstream(i) == r'.upstream(i)
    ensures SameInputs(r.cfg, r.env, r'.env) && SameErrors(r.cfg, r.env, r'.env)
  {
  }

  /**
   Polling a config again is harmless: a second fault-free round against the same upstream finds nothing to delete,
   leaves every object of the server as it is, but for the order of subjects that share a Name, and repeats the
   binding events. The only exception are names where the first round had to delete an object whose roleRef the server
   does not change; there the second round creates the object that is wanted.
   */
  lemma RepeatedRound(r: Round, r': Round, rules: Rules, st: Store, k: Key)
    requires Genuine(r) && Genuine(r') && r.cfg == r'.cfg
    requires forall i :: 0 <= i < |r.cfg.bindings| ==> r.upstream(i) == r'.upstream(i)
    requires FaultFree(r.cfg, r.env) && FaultFree(r.cfg, r'.env)
    requires CurrentCache(r.cfg, r.env, rules, r.cache, st)
    requires CurrentCache(r.cfg, r'.env, rules, r'.cache, Apply(rules, Pass(r), st))
    ensures AlikeAt(Apply(rules, Pass(r'), Apply(rules, Pass(r), st)), Apply(rules, Pass(r), st), k)
            <==> !(AtHome(r.cfg, k) && Replaced(r.cfg, r.env, rules, st, k.name))
    ensures var s := AfterBindings(r.cfg, r.env, rules, st);
            var s' := AfterBindings(r.cfg, r'.env, rules, Apply(rules, Pass(r), st));
            && (s'.events == s.events <==> forall name :: !Replaced(r.cfg, r.env, rules, st, name))
            && Doomed(r.cfg, r'.env, r'.cache, s'.active) == {}
  {
    SameUpstreamSameInputs(r, r');
    SecondRunRepeatsEvents(r.cfg, r.env, r'.env, rules, r.cache, r'.cache, st);
    SecondRunChangesNothingIff(r.cfg, r.env, r'.env, rules, r.cache, r'.cache, st, k);
  }

  /**
   No leaks: a binding that one round wrote is gone after a later fault-free round with a current cache, if by then the
   same config no longer asks for its name and no binding of unknown membership holds it.
   */
  lemma NoLeaks(r: Round, r': Round, rules: Rules, st: Store, i: nat)
    requires i < |r.cfg.bindings| && Wrote(r.cfg, r.env, rules, st, i)
    requires r'.cfg == r.cfg.(memberships := r'.cfg.memberships, bindings := r'.cfg.bindings)
    requires FaultFree(r'.cfg, r'.env)
    requires CurrentCache(r'.cfg, r'.env, rules, r'.cache, Apply(rules, Pass(r), st))
    requires NameAt(r.cfg, i) !in Target(r'.cfg, r'.env) && !HeldName(r'.cfg, r'.env, NameAt(r.cfg, i))
    ensures KeyOf(r.cfg, NameAt(r.cfg, i)) !in Apply(rules, Pass(r'), Apply(rules, Pass(r), st))
  {
    var k := KeyOf(r.cfg, NameAt(r.cfg, i));
    var once := Apply(rules, Pass(r), st);
    WrittenOnceAndKept(r.cfg, r.env, rules, r.cache, st, i);
    WrittenIsOwned(r.cfg, r'.cfg, r.cfg.bindings[i], r.env.lookup(i).members);
    UnlistedAt(r'.cfg, r'.env, rules, r'.cache, once, k);
  }

  /**
   Exactly when skipping a duplicate is harmless: a binding that is skipped because its name was written, while the
   upstream stayed the same, asked for the object that was written if and only if the two bindings of the spec are
   equal.
   */
  lemma SkipIsHarmlessIff(r: Round, rules: Rules, st: Store, i: nat, j: nat)
    requires Genuine(r) && i < j < |r.cfg.bindings|
    requires Wrote(r.cfg, r.env, rules, st, i) && GoodAt(r.cfg, r.env, j) && NameAt(r.cfg, i) == NameAt(r.cfg, j)
    requires r.upstream(i) == r.upstream(j)
    ensures At(Apply(rules, Pass(r), st), KeyOf(r.cfg, NameAt(r.cfg, j))) == Some(DesiredAt(r.cfg, r.env, i))
    ensures Alike(DesiredAt(r.cfg, r.env, i), DesiredAt(r.cfg, r.env, j)) <==> r.cfg.bindings[i] == r.cfg.bindings[j]
  {
    WrittenOnceAndKept(r.cfg, r.env, rules, r.cache, st, i);
    var b, b' := r.cfg.bindings[i], r.cfg.bindings[j];
    if b == b' {
      LookupsAgree(r.cfg.memberships, r.upstream(i), b.group, r.env.lookup(i), r.env.lookup(j));
      DuplicatesAreAlike(r.cfg, r.env, i, j);
    } else if b.group != b'.group {
      assert DesiredAt(r.cfg, r.env, i).annotations["rbacsync.getcruise.com/group"] == b.group;
      assert DesiredAt(r.cfg, r.env, j).annotations["rbacsync.getcruise.com/group"] == b'.group;
    }
  }

  /** Conditions on the spec as a whole under which no skip does harm. */
  lemma SkippedDuplicate(r: Round, rules: Rules, st: Store, i: nat, j: nat)
    requires Genuine(r) && i < j < |r.cfg.bindings|
    requires Wrote(r.cfg, r.env, rules, st, i) && GoodAt(r.cfg, r.env, j) && NameAt(r.cfg, i) == NameAt(r.cfg, j)
    requires r.upstream(i) == r.upstream(j)
    requires forall p :: 0 <= p < |r.cfg.bindings| ==> '-' !in r.cfg.bindings[p].roleRef.name
    requires forall p, q ::
               0 <= p < |r.cfg.bindings| && 0 <= q < |r.cfg.bindings|
               && r.cfg.bindings[p].group == r.cfg.bindings[q].group
               && r.cfg.bindings[p].roleRef.name == r.cfg.bindings[q].roleRef.name
               ==> r.cfg.bindings[p].roleRef == r.cfg.bindings[q].roleRef
    ensures Alike(DesiredAt(r.cfg, r.env, i), DesiredAt(r.cfg, r.env, j))
  {
    NamesInjective(r.cfg, r.cfg.bindings[i], r.cfg.bindings[j]);
    SkipIsHarmlessIff(r, rules, st, i, j);
  }
}
