/** Whole runs: any sequence of reconciles of any configs, with any failures and stale caches, and outside changes. */
module Runs {
  import opened Errors
  import opened Options
  import opened Subjects
  import opened Groupers
  import opened MergeAlgebra
  import opened Resolve
  import opened Api
  import opened Reconcile
  import opened PostState

  /**
   One reconcile with everything it met; `upstream(i)` is what the upstream was when the i-th binding was looked up.
   */
  datatype Round = Round(cfg: Config, env: Env, cache: Store, upstream: nat -> Option<Grouper>)

  datatype Step = Pass(round: Round) | Outside(key: Key, obj: Option<Object>)

  /** The lookups of the round are ones its memberships and upstreams can give. */
  ghost predicate Genuine(r: Round) {
    forall i :: 0 <= i < |r.cfg.bindings| ==>
      LookupOf(r.cfg.memberships, r.upstream(i), r.cfg.bindings[i].group, r.env.lookup(i))
  }

  function Apply(rules: Rules, step: Step, st: Store): Store {
    match step
    case Pass(r) => Reconciled(r.cfg, r.env, rules, r.cache, st)
    case Outside(k, Some(o)) => st[k := o]
    case Outside(k, None) => st - {k}
  }

  function After(rules: Rules, steps: seq<Step>, st: Store): Store {
    if steps == [] then st else Apply(rules, steps[|steps| - 1], After(rules, steps[..|steps| - 1], st))
  }

  // ---- Outage safety ----

  /** The upstream could not say who is in `group`, at any lookup of that group in the round. */
  ghost predicate Outage(r: Round, group: string) {
    forall i :: 0 <= i < |r.cfg.bindings| && r.cfg.bindings[i].group == group ==>
      && r.upstream(i).Some?
      && Lookup(r.upstream(i).value, group).Fails?
      && IsUnknownMemberships(Lookup(r.upstream(i).value, group).err)
  }

  /** The spec still asks for the binding of `group` stored at `k`, and no other group competes for the name. */
  ghost predicate Keeps(r: Round, group: string, k: Key) {
    && AtHome(r.cfg, k)
    && (exists i :: 0 <= i < |r.cfg.bindings| && r.cfg.bindings[i].group == group && NameAt(r.cfg, i) == k.name
                    && KindAllowed(r.cfg, r.cfg.bindings[i].roleRef.kind))
    && (forall i ::
          0 <= i < |r.cfg.bindings| && NameAt(r.cfg, i) == k.name && KindAllowed(r.cfg, r.cfg.bindings[i].roleRef.kind)
          ==> r.cfg.bindings[i].group == group)
  }

  /** The round has nothing to do with `k`: it neither wants it nor sees it as its own. */
  ghost predicate Bystander(r: Round, k: Key) {
    !AtHome(r.cfg, k)
    || ((forall i :: 0 <= i < |r.cfg.bindings| ==> NameAt(r.cfg, i) != k.name)
        && !(k in r.cache && Owned(r.cfg, r.cache[k])))
  }

  lemma {:induction false} HeldCell(cfg: Config, env: Env, rules: Rules, name: string, was: Option<Object>, n: nat)
    requires n <= |cfg.bindings|
    requires forall i :: 0 <= i < n && NameAt(cfg, i) == name ==> !GoodAt(cfg, env, i)
    ensures CellRun(cfg, env, rules, name, was, n).obj == was
    ensures (exists i :: 0 <= i < n && NameAt(cfg, i) == name && HeldAt(cfg, env, i))
            ==> CellRun(cfg, env, rules, name, was, n).active
  {
    if n > 0 {
      HeldCell(cfg, env, rules, name, was, n - 1);
    }
  }

  /** A round that meets an outage of `group` leaves the object of that group alone, static members or not. */
  lemma OutageSparesRound(r: Round, rules: Rules, st: Store, group: string, k: Key)
    requires Genuine(r) && Outage(r, group) && Keeps(r, group, k)
    ensures AgreeAt(Reconciled(r.cfg, r.env, rules, r.cache, st), st, k)
  {
    forall i | 0 <= i < |r.cfg.bindings| && r.cfg.bindings[i].group == group
      ensures r.env.lookup(i).Failed? && IsUnknownMemberships(r.env.lookup(i).err)
    {
      OutageIsNotMasked(r.cfg.memberships, r.upstream(i).value, group, r.env.lookup(i));
    }
    var i :| 0 <= i < |r.cfg.bindings| && r.cfg.bindings[i].group == group && NameAt(r.cfg, i) == k.name
      && KindAllowed(r.cfg, r.cfg.bindings[i].roleRef.kind);
    assert HeldAt(r.cfg, r.env, i);
    HeldCell(r.cfg, r.env, rules, k.name, At(st, k), |r.cfg.bindings|);
    RunFactorsByName(r.cfg, r.env, rules, r.cache, st, k);
  }

  /** The upstream did not know its members for now, for one of the three reasons there are, in whatever messages. */
  ghost predicate FailsForNow(up: Grouper, group: string) {
    exists msgs, base ::
      (base == Timeout || base == Canceled || base == Unknown) && Lookup(up, group) == Fails(Wrapped(msgs, base))
  }

  lemma FailingIsOutage(r: Round, group: string)
    requires forall i :: 0 <= i < |r.cfg.bindings| && r.cfg.bindings[i].group == group ==>
               r.upstream(i).Some? && FailsForNow(r.upstream(i).value, group)
    ensures Outage(r, group)
  {
    forall i | 0 <= i < |r.cfg.bindings| && r.cfg.bindings[i].group == group
      ensures Lookup(r.upstream(i).value, group).Fails?
      ensures IsUnknownMemberships(Lookup(r.upstream(i).value, group).err)
    {
      var msgs, base :| (base == Timeout || base == Canceled || base == Unknown)
        && Lookup(r.upstream(i).value, group) == Fails(Wrapped(msgs, base));
      WrappedMeans(msgs, base);
    }
  }

  /** The directory gave no client, or broke off the pages for any reason but a missing group. */
  predicate DirectoryDown(call: Fetch) {
    call.matches && (!call.clientOk || (call.ending.Broken? && !call.ending.status404))
  }

  /** So the object survives a timeout, a cancellation or any other trouble of the directory, whatever is declared. */
  lemma DirectoryOutageSparesRound(r: Round, rules: Rules, st: Store, calls: string -> Fetch, group: string, k: Key)
    requires Genuine(r) && Keeps(r, group, k) && DirectoryDown(calls(group))
    requires forall i :: 0 <= i < |r.cfg.bindings| ==> r.upstream(i) == Some(GSuite(calls))
    ensures AgreeAt(Reconciled(r.cfg, r.env, rules, r.cache, st), st, k)
  {
    var err := Lookup(GSuite(calls), group).err;
    assert Wrapped([err.msg], err.inner) == err by {
      assert [err.msg][1..] == [];
    }
    assert FailsForNow(GSuite(calls), group);
    FailingIsOutage(r, group);
    OutageSparesRound(r, rules, st, group, k);
  }

  /**
   Outage safety over whole runs: while the group's membership is unknown and the specs keep the binding, no sequence of
   reconciles, failed calls and stale caches alters or deletes the stored object. Rounds of other configs may come in
   between, if they live elsewhere, or neither want the name nor see the object as theirs.
   */
  lemma {:induction false} OutageSafety(rules: Rules, steps: seq<Step>, st: Store, group: string, k: Key)
    requires forall j :: 0 <= j < |steps| ==>
               match steps[j]
               case Pass(r) => Bystander(r, k) || (Genuine(r) && Outage(r, group) && Keeps(r, group, k))
               case Outside(k', _) => k' != k
    ensures AgreeAt(After(rules, steps, st), st, k)
  {
    if steps != [] {
      var before := After(rules, steps[..|steps| - 1], st);
      OutageSafety(rules, steps[..|steps| - 1], st, group, k);
      match steps[|steps| - 1]
      case Pass(r) =>
        if Bystander(r, k) {
          BystandersUnchanged(r.cfg, r.env, rules, r.cache, before, k);
        } else {
          OutageSparesRound(r, rules, before, group, k);
        }
      case Outside(_, _) =>
    }
  }

  // ---- Names that are too long ----

  /**
   Whatever a config ever wrote whose name is no label value stays: none of its rounds deletes anything. Where the
   server checks labels, none of them changes anything.
   */
  lemma {:induction false} LongNamesAreNeverCleanedUp(rules: Rules, steps: seq<Step>, st: Store, k: Key)
    requires forall j :: 0 <= j < |steps| ==>
               match steps[j]
               case Pass(r) => !LegalLabelValue(r.cfg.name) || Bystander(r, k)
               case Outside(k', _) => k' != k
    ensures k in st ==> k in After(rules, steps, st)
    ensures rules.checksLabels ==> AgreeAt(After(rules, steps, st), st, k)
  {
    if steps != [] {
      var before := After(rules, steps[..|steps| - 1], st);
      LongNamesAreNeverCleanedUp(rules, steps[..|steps| - 1], st, k);
      match steps[|steps| - 1]
      case Pass(r) =>
        if Bystander(r, k) {
          BystandersUnchanged(r.cfg, r.env, rules, r.cache, before, k);
        } else {
          if k in before {
            LongNamesAreNotCleanedUp(r.cfg, r.env, rules, r.cache, before, k);
          }
          if rules.checksLabels {
            LongNamesChangeNothing(r.cfg, r.env, rules, r.cache, before);
          }
        }
      case Outside(_, _) =>
    }
  }

  // ---- Provenance ----

  /**
   `o` is what binding `i` of the round asks for at `k`: the right place, owner, kind and exactly the right subjects.
   */
  ghost predicate WrittenBy(r: Round, i: nat, k: Key, o: Object) {
    && i < |r.cfg.bindings|
    && var b := r.cfg.bindings[i];
    && var clusterWide := r.cfg.scope == ClusterWide;
    && k == Key(r.cfg.scope, if clusterWide then "" else r.cfg.ns,
                r.cfg.name + "-" + b.group + "-" + b.roleRef.name)
    && o.roleRef == b.roleRef
    && (if clusterWide then b.roleRef.kind == "ClusterRole" else b.roleRef.kind in {"Role", "ClusterRole"})
    && o.owners == [OwnerRef("rbacsync.getcruise.com/v1alpha",
                             if clusterWide then "ClusterRBACSyncConfig" else "RBACSyncConfig",
                             r.cfg.name, r.cfg.uid, true)]
    && o.labels == map["owner" := r.cfg.name]
    && o.annotations == map["rbacsync.getcruise.com/group" := b.group]
    && o.subjects != []
    && Canonical(o.subjects, StaticMembers(r.cfg.memberships, b.group)
                             + if r.upstream(i).None? then {} else Contribution(Lookup(r.upstream(i).value, b.group)))
  }

  lemma {:induction false} CellOrigin(cfg: Config, env: Env, rules: Rules, name: string, was: Option<Object>, n: nat)
    requires n <= |cfg.bindings|
    ensures var c := CellRun(cfg, env, rules, name, was, n);
            c.obj == was
            || exists i ::
                 0 <= i < n && NameAt(cfg, i) == name && GoodAt(cfg, env, i) && c.obj == Some(DesiredAt(cfg, env, i))
  {
    if n > 0 {
      CellOrigin(cfg, env, rules, name, was, n - 1);
    }
  }

  lemma RoundOrigin(r: Round, rules: Rules, st: Store, k: Key)
    requires Genuine(r)
    ensures var after := Reconciled(r.cfg, r.env, rules, r.cache, st);
            k in after ==> (k in st && st[k] == after[k]) || exists i: nat :: WrittenBy(r, i, k, after[k])
  {
    RunFactorsByName(r.cfg, r.env, rules, r.cache, st, k);
    CellOrigin(r.cfg, r.env, rules, k.name, At(st, k), |r.cfg.bindings|);
    var after := Reconciled(r.cfg, r.env, rules, r.cache, st);
    if k in after && At(after, k) != At(st, k) {
      var i :| 0 <= i < |r.cfg.bindings| && NameAt(r.cfg, i) == k.name && GoodAt(r.cfg, r.env, i)
        && after[k] == DesiredAt(r.cfg, r.env, i);
      assert LookupOf(r.cfg.memberships, r.upstream(i), r.cfg.bindings[i].group, r.env.lookup(i));
      CanonicalSubjects(r, i);
      assert WrittenBy(r, i, k, after[k]);
    }
  }

  /** Cluster-wide bindings refer to cluster roles, namespaced ones to either kind. */
  predicate RoleFits(k: Key, o: Object) {
    o.roleRef.kind == "ClusterRole" || (k.scope != ClusterWide && o.roleRef.kind == "Role")
  }

  /** What a reconcile has changed and not deleted refers to a role of a kind that fits. */
  lemma ChangedRoleFits(cfg: Config, env: Env, rules: Rules, cache: Store, st: Store, k: Key)
    ensures var after := Reconciled(cfg, env, rules, cache, st);
            k in after && At(after, k) != At(st, k) ==> RoleFits(k, after[k])
  {
    RunFactorsByName(cfg, env, rules, cache, st, k);
    CellOrigin(cfg, env, rules, k.name, At(st, k), |cfg.bindings|);
  }

  /** So no sequence of reconciles, of any configs and with any lookups, leaves a role of another kind behind. */
  lemma {:induction false} RolesFit(rules: Rules, steps: seq<Step>, st: Store, k: Key)
    requires k in st ==> RoleFits(k, st[k])
    requires forall o :: Outside(k, Some(o)) in steps ==> RoleFits(k, o)
    ensures k in After(rules, steps, st) ==> RoleFits(k, After(rules, steps, st)[k])
  {
    if steps != [] {
      var front, last := steps[..|steps| - 1], steps[|steps| - 1];
      assert steps == front + [last];
      RolesFit(rules, front, st, k);
      match last
      case Pass(r) => ChangedRoleFits(r.cfg, r.env, rules, r.cache, After(rules, front, st), k);
      case Outside(_, _) => assert last in steps;
    }
  }

  lemma CanonicalSubjects(r: Round, i: nat)
    requires i < |r.cfg.bindings| && r.env.lookup(i).Found?
    requires LookupOf(r.cfg.memberships, r.upstream(i), r.cfg.bindings[i].group, r.env.lookup(i))
    ensures var group := r.cfg.bindings[i].group;
            Canonical(r.env.lookup(i).members, StaticMembers(r.cfg.memberships, group)
                      + if r.upstream(i).None? then {} else Contribution(Lookup(r.upstream(i).value, group)))
  {
  }

  /** `o` was at `k` to begin with, was put there from outside, or was written by some round as it should be. */
  ghost predicate Origin(steps: seq<Step>, st: Store, k: Key, o: Object) {
    || (k in st && st[k] == o)
    || Outside(k, Some(o)) in steps
    || exists j, i: nat :: 0 <= j < |steps| && steps[j].Pass? && WrittenBy(steps[j].round, i, k, o)
  }

  lemma OriginGrows(front: seq<Step>, last: Step, st: Store, k: Key, o: Object)
    requires Origin(front, st, k, o)
    ensures Origin(front + [last], st, k, o)
  {
    var steps := front + [last];
    if j, i: nat :| 0 <= j < |front| && front[j].Pass? && WrittenBy(front[j].round, i, k, o) {
      assert steps[j] == front[j];
    }
  }

  /** Every stored object has an origin, after any sequence of reconciles, failures and outside changes. */
  lemma {:induction false} Provenance(rules: Rules, steps: seq<Step>, st: Store, k: Key)
    requires forall j :: 0 <= j < |steps| && steps[j].Pass? ==> Genuine(steps[j].round)
    ensures k in After(rules, steps, st) ==> Origin(steps, st, k, After(rules, steps, st)[k])
  {
    if steps != [] {
      var front, last := steps[..|steps| - 1], steps[|steps| - 1];
      assert steps == front + [last];
      var before := After(rules, front, st);
      Provenance(rules, front, st, k);
      OriginStep(rules, front, last, st, before, k);
    }
  }

  lemma OriginStep(rules: Rules, front: seq<Step>, last: Step, st: Store, before: Store, k: Key)
    requires k in before ==> Origin(front, st, k, before[k])
    requires last.Pass? ==> Genuine(last.round)
    ensures var after := Apply(rules, last, before);
            k in after ==> Origin(front + [last], st, k, after[k])
  {
    var after, steps := Apply(rules, last, before), front + [last];
    if k in before {
      OriginGrows(front, last, st, k, before[k]);
    }
    match last
    case Pass(r) =>
      RoundOrigin(r, rules, before, k);
      if i: nat :| k in after && WrittenBy(r, i, k, after[k]) {
        assert steps[|front|] == last;
      }
    case Outside(k', o) =>
      assert steps[|front|] == last;
  }
}
