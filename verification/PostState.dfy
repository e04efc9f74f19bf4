/** What one reconcile leaves behind and reports, under every pattern of failures and every stale cache. */
module PostState {
  import opened Errors
  import opened Options
  import opened Subjects
  import opened Groupers
  import opened Api
  import opened Reconcile

  /** The object and the activity mark of a single name. */
  datatype Cell = Cell(obj: Option<Object>, active: bool)

  function At(st: Store, k: Key): Option<Object> {
    if k in st then Some(st[k]) else None
  }

  /** One upsert as a table over what is stored under the name and what befalls the two calls. */
  function UpsertOne(rules: Rules, cur: Option<Object>, o: Object, update: Verdict, create: Verdict): Cell {
    if !Accepts(rules, o) then Cell(cur, false)
    else if cur.Some? && rules.fixedRoleRef && cur.value.roleRef != o.roleRef then Cell(cur, false)
    else if cur.Some? || rules.upsert then Cell(if update == Fail then cur else Some(o), update == Serve)
    else if update == Serve then Cell(if create == Fail then None else Some(o), create == Serve)
    else Cell(None, false)
  }

  /** The i-th binding keeps its name alive because its members could not be determined. */
  predicate HeldAt(cfg: Config, env: Env, i: nat)
    requires i < |cfg.bindings|
  {
    && KindAllowed(cfg, cfg.bindings[i].roleRef.kind)
    && env.lookup(i).Failed? && IsUnknownMemberships(env.lookup(i).err)
  }

  /** The i-th binding has members to be written. */
  predicate GoodAt(cfg: Config, env: Env, i: nat)
    requires i < |cfg.bindings|
  {
    && KindAllowed(cfg, cfg.bindings[i].roleRef.kind)
    && env.lookup(i).Found? && env.lookup(i).members != []
  }

  function NameAt(cfg: Config, i: nat): string
    requires i < |cfg.bindings|
  {
    NameOf(cfg, cfg.bindings[i])
  }

  function DesiredAt(cfg: Config, env: Env, i: nat): Object
    requires i < |cfg.bindings| && GoodAt(cfg, env, i)
  {
    Desired(cfg, cfg.bindings[i], env.lookup(i).members)
  }

  function CellStep(cfg: Config, env: Env, rules: Rules, name: string, i: nat, c: Cell): Cell
    requires i < |cfg.bindings|
  {
    if NameAt(cfg, i) != name then c
    else if HeldAt(cfg, env, i) then c.(active := true)
    else if GoodAt(cfg, env, i) && !c.active then
      UpsertOne(rules, c.obj, DesiredAt(cfg, env, i), env.update(i), env.create(i))
    else c
  }

  /** The binding loop as one name sees it: bindings with other names do not exist. */
  function CellRun(cfg: Config, env: Env, rules: Rules, name: string, was: Option<Object>, n: nat): Cell
    requires n <= |cfg.bindings|
  {
    if n == 0 then Cell(was, false)
    else CellStep(cfg, env, rules, name, n - 1, CellRun(cfg, env, rules, name, was, n - 1))
  }

  lemma UpsertAt(rules: Rules, st: Store, k: Key, o: Object, update: Verdict, create: Verdict, k': Key)
    ensures var (after, reply) := Upsert(rules, st, k, o, update, create);
            && Cell(At(after, k), reply == Done) == UpsertOne(rules, At(st, k), o, update, create)
            && (k' != k ==> AgreeAt(after, st, k'))
  {
  }

  /** What a key shows while the loop runs. */
  function CellAt(s: Progress, k: Key): Cell {
    Cell(At(s.store, k), k.name in s.active)
  }

  lemma StepFactors(cfg: Config, env: Env, rules: Rules, i: nat, s: Progress, s': Progress, c: Cell, c': Cell, k: Key)
    requires i < |cfg.bindings| && AtHome(cfg, k) && CellAt(s, k) == c
    requires s' == BindingStep(cfg, env, rules, i, s) && c' == CellStep(cfg, env, rules, k.name, i, c)
    ensures CellAt(s', k) == c'
  {
    var b := cfg.bindings[i];
    match Decide(cfg, b, env.lookup(i), s.active)
    case Write(obj) =>
      UpsertAt(rules, s.store, KeyOf(cfg, NameOf(cfg, b)), obj, env.update(i), env.create(i), k);
      assert k == KeyOf(cfg, NameOf(cfg, b)) <==> k.name == NameOf(cfg, b);
    case _ =>
  }

  /** The handler's loop, seen from one key of its scope and namespace, is the run of that key's name alone. */
  lemma {:induction false} LoopFactors(cfg: Config, env: Env, rules: Rules, st: Store, n: nat, k: Key)
    requires n <= |cfg.bindings| && AtHome(cfg, k)
    ensures CellAt(BindingLoop(cfg, env, rules, st, n), k) == CellRun(cfg, env, rules, k.name, At(st, k), n)
  {
    if n > 0 {
      LoopFactors(cfg, env, rules, st, n - 1, k);
      StepFactors(cfg, env, rules, n - 1,
                  BindingLoop(cfg, env, rules, st, n - 1), BindingLoop(cfg, env, rules, st, n),
                  CellRun(cfg, env, rules, k.name, At(st, k), n - 1),
                  CellRun(cfg, env, rules, k.name, At(st, k), n), k);
    }
  }

  lemma {:induction false} LoopSparesOthers(cfg: Config, env: Env, rules: Rules, st: Store, n: nat, k: Key)
    requires n <= |cfg.bindings| && !AtHome(cfg, k)
    ensures AgreeAt(BindingLoop(cfg, env, rules, st, n).store, st, k)
  {
    if n > 0 {
      LoopSparesOthers(cfg, env, rules, st, n - 1, k);
      StepSparesOthers(cfg, env, rules, n - 1, BindingLoop(cfg, env, rules, st, n - 1),
                       BindingLoop(cfg, env, rules, st, n), k);
    }
  }

  lemma StepSparesOthers(cfg: Config, env: Env, rules: Rules, i: nat, s: Progress, s': Progress, k: Key)
    requires i < |cfg.bindings| && !AtHome(cfg, k) && s' == BindingStep(cfg, env, rules, i, s)
    ensures AgreeAt(s'.store, s.store, k)
  {
    var b := cfg.bindings[i];
    match Decide(cfg, b, env.lookup(i), s.active)
    case Write(obj) =>
      UpsertAt(rules, s.store, KeyOf(cfg, NameOf(cfg, b)), obj, env.update(i), env.create(i), k);
    case _ =>
  }

  /** The cleanup is about to delete `k`, and the call takes effect. */
  predicate Removed(cfg: Config, env: Env, cache: Store, k: Key) {
    CleanupRuns(cfg, env) && k in cache && Owned(cfg, cache[k]) && env.delete(k) != Fail
  }

  /**
   The whole effect of a run, name by name: outside the config's scope and namespace nothing changes; a name ends as its
   own bindings left it, unless it is not active, cached as owned by this config and its deletion takes effect.
   */
  lemma RunFactorsByName(cfg: Config, env: Env, rules: Rules, cache: Store, st: Store, k: Key)
    ensures var after := Reconciled(cfg, env, rules, cache, st);
            var c := CellRun(cfg, env, rules, k.name, At(st, k), |cfg.bindings|);
            At(after, k) ==
            if !AtHome(cfg, k) then At(st, k)
            else if !c.active && Removed(cfg, env, cache, k) then None
            else c.obj
  {
    if AtHome(cfg, k) {
      LoopFactors(cfg, env, rules, st, |cfg.bindings|, k);
    } else {
      LoopSparesOthers(cfg, env, rules, st, |cfg.bindings|, k);
    }
  }

  /** A namespaced config touches its own namespace only, a cluster-wide one no namespace at all. */
  lemma ChangesStayHome(cfg: Config, env: Env, rules: Rules, cache: Store, st: Store, k: Key)
    requires At(Reconciled(cfg, env, rules, cache, st), k) != At(st, k)
    ensures k.scope == cfg.scope && k.ns == if cfg.scope == ClusterWide then "" else cfg.ns
  {
    RunFactorsByName(cfg, env, rules, cache, st, k);
  }

  /**
   Nothing is deleted but what the lister worked for and showed in the config's place, with its name in the owner label
   and its uid in the first owner that is a controller.
   */
  lemma DeletedWasOwned(cfg: Config, env: Env, rules: Rules, cache: Store, st: Store, k: Key)
    requires k in st && k !in Reconciled(cfg, env, rules, cache, st)
    ensures env.listOk && k in cache && ("owner", cfg.name) in cache[k].labels.Items
    ensures exists i :: 0 <= i < |cache[k].owners| && cache[k].owners[i].controller && cache[k].owners[i].uid == cfg.uid
                        && forall j :: 0 <= j < i ==> !cache[k].owners[j].controller
  {
    RunFactorsByName(cfg, env, rules, cache, st, k);
    CellsAreNotEmptied(cfg, env, rules, k.name, At(st, k), |cfg.bindings|);
    SelectedIff(cache[k], cfg.name);
    ControlledByIff(cache[k].owners, cfg.uid);
  }

  /** The i-th binding was written and the server acknowledged it. */
  predicate Wrote(cfg: Config, env: Env, rules: Rules, st: Store, i: nat)
    requires i < |cfg.bindings|
  {
    var c := CellRun(cfg, env, rules, NameAt(cfg, i), At(st, KeyOf(cfg, NameAt(cfg, i))), i);
    && GoodAt(cfg, env, i) && !c.active
    && UpsertOne(rules, c.obj, DesiredAt(cfg, env, i), env.update(i), env.create(i)).active
  }

  lemma {:induction false} ActiveStays(cfg: Config, env: Env, rules: Rules, name: string, was: Option<Object>,
                                       m: nat, n: nat)
    requires m <= n <= |cfg.bindings|
    requires CellRun(cfg, env, rules, name, was, m).active
    ensures CellRun(cfg, env, rules, name, was, n) == CellRun(cfg, env, rules, name, was, m)
  {
    if m < n {
      ActiveStays(cfg, env, rules, name, was, m, n - 1);
    }
  }

  /** A name becomes active in exactly two ways: it was written, or its members are unknown. */
  lemma {:induction false} ActiveMeans(cfg: Config, env: Env, rules: Rules, st: Store, name: string, n: nat)
    requires n <= |cfg.bindings|
    ensures CellRun(cfg, env, rules, name, At(st, KeyOf(cfg, name)), n).active <==>
            exists i :: 0 <= i < n && NameAt(cfg, i) == name && (Wrote(cfg, env, rules, st, i) || HeldAt(cfg, env, i))
  {
    if n > 0 {
      ActiveMeans(cfg, env, rules, st, name, n - 1);
      var c := CellRun(cfg, env, rules, name, At(st, KeyOf(cfg, name)), n - 1);
      if CellStep(cfg, env, rules, name, n - 1, c).active && !c.active {
        assert NameAt(cfg, n - 1) == name && (Wrote(cfg, env, rules, st, n - 1) || HeldAt(cfg, env, n - 1));
      }
    }
  }

  /**
   A name is written successfully at most once in a run; it then holds the object of that binding when the run ends, so
   nothing written in a run is deleted, overwritten or altered in the same run.
   */
  lemma WrittenOnceAndKept(cfg: Config, env: Env, rules: Rules, cache: Store, st: Store, i: nat)
    requires i < |cfg.bindings| && Wrote(cfg, env, rules, st, i)
    ensures At(Reconciled(cfg, env, rules, cache, st), KeyOf(cfg, NameAt(cfg, i))) == Some(DesiredAt(cfg, env, i))
    ensures forall j :: 0 <= j < |cfg.bindings| && j != i && NameAt(cfg, j) == NameAt(cfg, i)
              ==> !Wrote(cfg, env, rules, st, j)
  {
    var name := NameAt(cfg, i);
    var k := KeyOf(cfg, name);
    var c := CellRun(cfg, env, rules, name, At(st, k), i + 1);
    assert c.active && c.obj == Some(DesiredAt(cfg, env, i));
    ActiveStays(cfg, env, rules, name, At(st, k), i + 1, |cfg.bindings|);
    RunFactorsByName(cfg, env, rules, cache, st, k);
    WrittenAlone(cfg, env, rules, st, i);
  }

  lemma WrittenAlone(cfg: Config, env: Env, rules: Rules, st: Store, i: nat)
    requires i < |cfg.bindings| && Wrote(cfg, env, rules, st, i)
    ensures forall j :: 0 <= j < |cfg.bindings| && j != i && NameAt(cfg, j) == NameAt(cfg, i)
              ==> !Wrote(cfg, env, rules, st, j)
  {
    var name := NameAt(cfg, i);
    var was := At(st, KeyOf(cfg, name));
    assert CellRun(cfg, env, rules, name, was, i + 1).active;
    forall j | 0 <= j < |cfg.bindings| && j != i && NameAt(cfg, j) == name
      ensures !Wrote(cfg, env, rules, st, j)
    {
      if j > i {
        ActiveStays(cfg, env, rules, name, was, i + 1, j);
      } else if Wrote(cfg, env, rules, st, j) {
        assert CellRun(cfg, env, rules, name, was, j + 1).active;
        ActiveStays(cfg, env, rules, name, was, j + 1, i);
      }
    }
  }

  /** `obj` is what a binding of the name wrote without hearing of its success: the reply of that write was lost. */
  predicate WrittenUnheard(cfg: Config, env: Env, name: string, n: nat, obj: Option<Object>)
    requires n <= |cfg.bindings|
  {
    exists i :: 0 <= i < n && NameAt(cfg, i) == name && (env.update(i) == Lose || env.create(i) == Lose)
                && GoodAt(cfg, env, i) && obj == Some(DesiredAt(cfg, env, i))
  }

  lemma {:induction false} UnwrittenCell(cfg: Config, env: Env, rules: Rules, st: Store, name: string, n: nat)
    requires n <= |cfg.bindings|
    requires forall i :: 0 <= i < n && NameAt(cfg, i) == name ==> !Wrote(cfg, env, rules, st, i)
    ensures var obj := CellRun(cfg, env, rules, name, At(st, KeyOf(cfg, name)), n).obj;
            obj == At(st, KeyOf(cfg, name)) || WrittenUnheard(cfg, env, name, n, obj)
  {
    if n > 0 {
      UnwrittenCell(cfg, env, rules, st, name, n - 1);
      var was := At(st, KeyOf(cfg, name));
      var c, c' := CellRun(cfg, env, rules, name, was, n - 1), CellRun(cfg, env, rules, name, was, n);
      if c'.obj == c.obj {
        if WrittenUnheard(cfg, env, name, n - 1, c.obj) {
          var i :| 0 <= i < n - 1 && NameAt(cfg, i) == name && (env.update(i) == Lose || env.create(i) == Lose)
            && GoodAt(cfg, env, i) && c.obj == Some(DesiredAt(cfg, env, i));
        }
      } else {
        UnheardStep(cfg, env, rules, st, name, n - 1);
      }
    }
  }

  /** A binding that changes the cell without having written it has lost a reply. */
  lemma UnheardStep(cfg: Config, env: Env, rules: Rules, st: Store, name: string, i: nat)
    requires i < |cfg.bindings| && (NameAt(cfg, i) == name ==> !Wrote(cfg, env, rules, st, i))
    ensures var was := At(st, KeyOf(cfg, name));
            var c, c' := CellRun(cfg, env, rules, name, was, i), CellRun(cfg, env, rules, name, was, i + 1);
            c'.obj == c.obj || (NameAt(cfg, i) == name && (env.update(i) == Lose || env.create(i) == Lose)
                                && GoodAt(cfg, env, i) && c'.obj == Some(DesiredAt(cfg, env, i)))
  {
  }

  /**
   A name without an acknowledged write is deleted exactly when no binding holds it, the cache shows it as owned, and
   the deletion takes effect; otherwise it keeps its object, unless the reply of a write was lost. In particular a
   binding whose write merely failed does not protect the object it wanted to update.
   */
  lemma UnwrittenPostState(cfg: Config, env: Env, rules: Rules, cache: Store, st: Store, k: Key)
    requires AtHome(cfg, k)
    requires forall i :: 0 <= i < |cfg.bindings| && NameAt(cfg, i) == k.name ==> !Wrote(cfg, env, rules, st, i)
    ensures var obj := At(Reconciled(cfg, env, rules, cache, st), k);
            if (forall i :: 0 <= i < |cfg.bindings| && NameAt(cfg, i) == k.name ==> !HeldAt(cfg, env, i))
               && Removed(cfg, env, cache, k)
            then obj == None
            else obj == At(st, k) || WrittenUnheard(cfg, env, k.name, |cfg.bindings|, obj)
  {
    RunFactorsByName(cfg, env, rules, cache, st, k);
    assert k == KeyOf(cfg, k.name);
    UnwrittenCell(cfg, env, rules, st, k.name, |cfg.bindings|);
    ActiveMeans(cfg, env, rules, st, k.name, |cfg.bindings|);
  }

  /** Ownership: what a config neither asks for by name nor sees as its own in the cache, it leaves alone. */
  lemma BystandersUnchanged(cfg: Config, env: Env, rules: Rules, cache: Store, st: Store, k: Key)
    requires !AtHome(cfg, k)
             || ((forall i :: 0 <= i < |cfg.bindings| ==> NameAt(cfg, i) != k.name)
                 && !(k in cache && Owned(cfg, cache[k])))
    ensures AgreeAt(Reconciled(cfg, env, rules, cache, st), st, k)
  {
    RunFactorsByName(cfg, env, rules, cache, st, k);
    if AtHome(cfg, k) {
      UnwrittenPostState(cfg, env, rules, cache, st, k);
    }
  }

  lemma {:induction false} CellsAreNotEmptied(cfg: Config, env: Env, rules: Rules, name: string, was: Option<Object>,
                                              n: nat)
    requires n <= |cfg.bindings|
    ensures was.Some? ==> CellRun(cfg, env, rules, name, was, n).obj.Some?
  {
    if n > 0 {
      CellsAreNotEmptied(cfg, env, rules, name, was, n - 1);
    }
  }

  /** A config name that is no label value makes the error that "should never happen": the run deletes nothing. */
  lemma LongNamesAreNotCleanedUp(cfg: Config, env: Env, rules: Rules, cache: Store, st: Store, k: Key)
    requires !LegalLabelValue(cfg.name) && k in st
    ensures k in Reconciled(cfg, env, rules, cache, st)
  {
    RunFactorsByName(cfg, env, rules, cache, st, k);
    CellsAreNotEmptied(cfg, env, rules, k.name, At(st, k), |cfg.bindings|);
  }

  lemma {:induction false} RefusedLabels(cfg: Config, env: Env, rules: Rules, name: string, was: Option<Object>, n: nat)
    requires n <= |cfg.bindings| && rules.checksLabels && !LegalLabelValue(cfg.name)
    ensures CellRun(cfg, env, rules, name, was, n).obj == was
  {
    if n > 0 {
      RefusedLabels(cfg, env, rules, name, was, n - 1);
      if GoodAt(cfg, env, n - 1) {
        assert DesiredAt(cfg, env, n - 1).labels["owner"] == cfg.name;
      }
    }
  }

  /** Where the server checks labels, such a config cannot store anything either: its runs change nothing at all. */
  lemma LongNamesChangeNothing(cfg: Config, env: Env, rules: Rules, cache: Store, st: Store)
    requires rules.checksLabels && !LegalLabelValue(cfg.name)
    ensures Reconciled(cfg, env, rules, cache, st) == st
  {
    forall k
      ensures AgreeAt(Reconciled(cfg, env, rules, cache, st), st, k)
    {
      RunFactorsByName(cfg, env, rules, cache, st, k);
      RefusedLabels(cfg, env, rules, k.name, At(st, k), |cfg.bindings|);
    }
    SameStore(Reconciled(cfg, env, rules, cache, st), st);
  }

  /** What a config writes, it can clean up later, and no config of another name or uid can. */
  lemma WrittenIsOwned(cfg: Config, cfg': Config, b: Binding, members: seq<Subject>)
    ensures Owned(cfg', Desired(cfg, b, members)) <==> cfg'.name == cfg.name && cfg'.uid == cfg.uid
  {
    var o := Desired(cfg, b, members);
    assert o.owners[0] == ControllerRef(cfg) && o.labels["owner"] == cfg.name;
  }

  // ---- Events ----

  /** What the events of one reason are about, in order. */
  function Abouts(events: seq<Event>, reason: Reason): seq<string> {
    if events == [] then []
    else
      Abouts(events[..|events| - 1], reason)
      + if events[|events| - 1].reason == reason then [events[|events| - 1].about] else []
  }

  predicate Classified(ans: Answer) {
    ans.Failed? ==> IsNotFound(ans.err) || IsUnknownMemberships(ans.err)
  }

  /** The round of a binding adds at most one event, which says Configured exactly when the binding was written. */
  lemma RoundEvent(cfg: Config, env: Env, rules: Rules, st: Store, i: nat) returns (e: Event)
    requires i < |cfg.bindings|
    ensures var before, after := BindingLoop(cfg, env, rules, st, i), BindingLoop(cfg, env, rules, st, i + 1);
            after.events == before.events + [e] || (after.events == before.events && !Wrote(cfg, env, rules, st, i))
    ensures Classified(env.lookup(i)) ==>
              BindingLoop(cfg, env, rules, st, i + 1).events == BindingLoop(cfg, env, rules, st, i).events + [e]
    ensures e.reason == Configured <==> Wrote(cfg, env, rules, st, i)
    ensures e.about == cfg.bindings[i].group || e.about == NameAt(cfg, i)
    ensures e.reason == Configured ==> e.about == NameAt(cfg, i)
  {
    var k := KeyOf(cfg, NameAt(cfg, i));
    LoopFactors(cfg, env, rules, st, i, k);
    var before := BindingLoop(cfg, env, rules, st, i);
    var after := BindingLoop(cfg, env, rules, st, i + 1);
    e := if |after.events| > |before.events| then after.events[|before.events|] else Event(Warning, NameAt(cfg, i));
    match Decide(cfg, cfg.bindings[i], env.lookup(i), before.active)
    case Write(obj) =>
      UpsertAt(rules, before.store, k, obj, env.update(i), env.create(i), k);
    case _ =>
  }

  /** The event of the i-th round, reason by reason. */
  lemma RoundReason(cfg: Config, env: Env, rules: Rules, st: Store, i: nat, msgs: seq<string>, base: Error)
    requires i < |cfg.bindings|
    requires !base.Wrap? && (env.lookup(i).Failed? ==> env.lookup(i).err == Wrapped(msgs, base))
    ensures var before, after := BindingLoop(cfg, env, rules, st, i), BindingLoop(cfg, env, rules, st, i + 1);
            var b := cfg.bindings[i];
            var name := cfg.name + "-" + b.group + "-" + b.roleRef.name;
            after.events == before.events +
            if b.roleRef.kind != "ClusterRole" && (cfg.scope == ClusterWide || b.roleRef.kind != "Role")
            then [Event(BindingError, b.group)]
            else if env.lookup(i).Failed? then
              if base == NotFound then [Event(UnknownGroup, b.group)]
              else if base in {Unknown, Timeout, Canceled} then [Event(BindingError, b.group)]
              else []
            else if env.lookup(i).members == [] then [Event(Warning, b.group)]
            else if name in before.active then [Event(Duplicated, name)]
            else if Wrote(cfg, env, rules, st, i) then [Event(Configured, name)]
            else [Event(BindingError, name)]
  {
    var before := BindingLoop(cfg, env, rules, st, i);
    DecideMeans(cfg, cfg.bindings[i], env.lookup(i), before.active, msgs, base);
    var e := RoundEvent(cfg, env, rules, st, i);
    StepReason(cfg, env, rules, i, before, BindingLoop(cfg, env, rules, st, i + 1), e);
  }

  lemma StepReason(cfg: Config, env: Env, rules: Rules, i: nat, s: Progress, s': Progress, e: Event)
    requires i < |cfg.bindings| && s' == BindingStep(cfg, env, rules, i, s)
    requires s'.events == s.events + [e] || s'.events == s.events
    ensures var b := cfg.bindings[i];
            match Decide(cfg, b, env.lookup(i), s.active)
            case BadKind => s'.events == s.events + [Event(BindingError, b.group)]
            case NotThere => s'.events == s.events + [Event(UnknownGroup, b.group)]
            case Held => s'.events == s.events + [Event(BindingError, b.group)]
            case Ignored => s'.events == s.events
            case Nobody => s'.events == s.events + [Event(Warning, b.group)]
            case Duplicate => s'.events == s.events + [Event(Duplicated, NameAt(cfg, i))]
            case Write(_) =>
              && s'.events == s.events + [e] && e.about == NameAt(cfg, i)
              && (e.reason == Configured || e.reason == BindingError)
  {
    if Decide(cfg, cfg.bindings[i], env.lookup(i), s.active).Write? {
      assert s'.events[|s.events|].about == NameAt(cfg, i);
    }
  }

  /** With classified errors every binding of the spec is reported by exactly one event, in the order of the spec. */
  lemma OneEventPerBinding(cfg: Config, env: Env, rules: Rules, st: Store, i: nat)
    requires i < |cfg.bindings| && forall j :: 0 <= j < |cfg.bindings| ==> Classified(env.lookup(j))
    ensures var events := AfterBindings(cfg, env, rules, st).events;
            && |events| == |cfg.bindings|
            && (events[i].reason == Configured <==> Wrote(cfg, env, rules, st, i))
            && (events[i].about == cfg.bindings[i].group || events[i].about == NameAt(cfg, i))
  {
    var e := RoundEvent(cfg, env, rules, st, i);
    LoopEvents(cfg, env, rules, st, i);
    EventStays(cfg, env, rules, st, i, |cfg.bindings|);
  }

  lemma {:induction false} LoopEvents(cfg: Config, env: Env, rules: Rules, st: Store, n: nat)
    requires n <= |cfg.bindings| && forall j :: 0 <= j < |cfg.bindings| ==> Classified(env.lookup(j))
    ensures |BindingLoop(cfg, env, rules, st, n).events| == n
  {
    if n > 0 {
      LoopEvents(cfg, env, rules, st, n - 1);
      StepEvent(cfg, env, rules, n - 1,
                BindingLoop(cfg, env, rules, st, n - 1), BindingLoop(cfg, env, rules, st, n));
    }
  }

  lemma {:induction false} EventStays(cfg: Config, env: Env, rules: Rules, st: Store, i: nat, n: nat)
    requires i < n <= |cfg.bindings| && forall j :: 0 <= j < |cfg.bindings| ==> Classified(env.lookup(j))
    ensures |BindingLoop(cfg, env, rules, st, n).events| == n
    ensures |BindingLoop(cfg, env, rules, st, i + 1).events| == i + 1
    ensures BindingLoop(cfg, env, rules, st, n).events[i] == BindingLoop(cfg, env, rules, st, i + 1).events[i]
  {
    LoopEvents(cfg, env, rules, st, n);
    LoopEvents(cfg, env, rules, st, i + 1);
    if i + 1 < n {
      EventStays(cfg, env, rules, st, i, n - 1);
      StepEvent(cfg, env, rules, n - 1,
                BindingLoop(cfg, env, rules, st, n - 1), BindingLoop(cfg, env, rules, st, n));
    }
  }

  lemma StepEvent(cfg: Config, env: Env, rules: Rules, n: nat, s: Progress, s': Progress)
    requires n < |cfg.bindings| && Classified(env.lookup(n)) && s' == BindingStep(cfg, env, rules, n, s)
    ensures s.events <= s'.events && |s'.events| == |s.events| + 1
  {
  }

  lemma AboutsSnoc(events: seq<Event>, e: Event, reason: Reason)
    ensures Abouts(events + [e], reason) == Abouts(events, reason) + if e.reason == reason then [e.about] else []
  {
    assert (events + [e])[..|events|] == events;
  }

  /** The names `f(i)` of those `i` below `n` for which `p` holds, in order. */
  function Chosen(n: nat, p: nat -> bool, f: nat -> string): seq<string> {
    if n == 0 then [] else Chosen(n - 1, p, f) + if p(n - 1) then [f(n - 1)] else []
  }

  predicate NoRepeats(names: seq<string>) {
    forall p, q :: 0 <= p < q < |names| ==> names[p] != names[q]
  }

  lemma {:induction false} ChosenMeans(n: nat, p: nat -> bool, f: nat -> string)
    ensures forall name :: name in Chosen(n, p, f) <==> exists i :: 0 <= i < n && p(i) && f(i) == name
    ensures (forall i, j :: 0 <= i < j < n && p(i) && p(j) ==> f(i) != f(j)) ==> NoRepeats(Chosen(n, p, f))
  {
    if n > 0 {
      ChosenMeans(n - 1, p, f);
      var before, now := Chosen(n - 1, p, f), Chosen(n, p, f);
      if (forall i, j :: 0 <= i < j < n && p(i) && p(j) ==> f(i) != f(j)) && p(n - 1) {
        assert f(n - 1) !in before;
        assert now == before + [f(n - 1)];
      }
    }
  }

  /** Whether the i-th binding was written, for any number. */
  function Writes(cfg: Config, env: Env, rules: Rules, st: Store): nat -> bool {
    (i: nat) => i < |cfg.bindings| && Wrote(cfg, env, rules, st, i)
  }

  function NameOfAny(cfg: Config): nat -> string {
    (i: nat) => if i < |cfg.bindings| then NameAt(cfg, i) else ""
  }

  lemma RoundAbouts(cfg: Config, env: Env, rules: Rules, st: Store, i: nat)
    requires i < |cfg.bindings|
    ensures Abouts(BindingLoop(cfg, env, rules, st, i + 1).events, Configured)
            == Abouts(BindingLoop(cfg, env, rules, st, i).events, Configured)
               + if Writes(cfg, env, rules, st)(i) then [NameOfAny(cfg)(i)] else []
  {
    var e := RoundEvent(cfg, env, rules, st, i);
    AboutsSnoc(BindingLoop(cfg, env, rules, st, i).events, e, Configured);
  }

  lemma {:induction false} ConfiguredEventsListed(cfg: Config, env: Env, rules: Rules, st: Store, n: nat, s: Progress)
    requires n <= |cfg.bindings| && s == BindingLoop(cfg, env, rules, st, n)
    ensures Abouts(s.events, Configured) == Chosen(n, Writes(cfg, env, rules, st), NameOfAny(cfg))
  {
    if n > 0 {
      var before := BindingLoop(cfg, env, rules, st, n - 1);
      ConfiguredEventsListed(cfg, env, rules, st, n - 1, before);
      RoundAbouts(cfg, env, rules, st, n - 1);
      ChosenNext(n - 1, Writes(cfg, env, rules, st), NameOfAny(cfg), Abouts(before.events, Configured),
                 Abouts(s.events, Configured));
    }
  }

  lemma ChosenNext(n: nat, p: nat -> bool, f: nat -> string, before: seq<string>, now: seq<string>)
    requires before == Chosen(n, p, f) && now == before + if p(n) then [f(n)] else []
    ensures now == Chosen(n + 1, p, f)
  {
  }

  predicate WrittenName(cfg: Config, env: Env, rules: Rules, st: Store, name: string) {
    exists i :: 0 <= i < |cfg.bindings| && NameAt(cfg, i) == name && Wrote(cfg, env, rules, st, i)
  }

  /** The Configured events name each successfully written binding once, and nothing else. */
  lemma ConfiguredEvents(cfg: Config, env: Env, rules: Rules, st: Store)
    ensures var names := Abouts(AfterBindings(cfg, env, rules, st).events, Configured);
            && (forall name :: name in names <==> WrittenName(cfg, env, rules, st, name))
            && NoRepeats(names)
  {
    var n, p, f := |cfg.bindings|, Writes(cfg, env, rules, st), NameOfAny(cfg);
    ConfiguredEventsListed(cfg, env, rules, st, n, AfterBindings(cfg, env, rules, st));
    ChosenMeans(n, p, f);
    forall i, j | 0 <= i < j < n && p(i) && p(j)
      ensures f(i) != f(j)
    {
      WrittenAlone(cfg, env, rules, st, i);
    }
    forall name
      ensures WrittenName(cfg, env, rules, st, name) <==> exists i :: 0 <= i < n && p(i) && f(i) == name
    {
      if i :| 0 <= i < n && NameAt(cfg, i) == name && Wrote(cfg, env, rules, st, i) {
        assert p(i) && f(i) == name;
      }
    }
  }

  lemma {:induction false} CleanupEventCount(cfg: Config, env: Env, listing: seq<Key>, doomed: set<Key>)
    requires forall i, j :: 0 <= i < j < |listing| ==> listing[i] != listing[j]
    requires forall k :: k in doomed ==> k in listing
    ensures |CleanupEvents(cfg, env, listing, doomed)| == |doomed|
    decreases |listing|
  {
    if listing == [] {
      assert doomed == {};
    } else {
      var n := |listing| - 1;
      var front, k := listing[..n], listing[n];
      assert listing == front + [k];
      CleanupEventCount(cfg, env, front, doomed - {k});
      SameEvents(cfg, env, front, doomed, k);
      if k in doomed {
        assert doomed == doomed - {k} + {k};
      } else {
        assert doomed - {k} == doomed;
      }
    }
  }

  lemma {:induction false} SameEvents(cfg: Config, env: Env, front: seq<Key>, doomed: set<Key>, k: Key)
    requires k !in front
    ensures CleanupEvents(cfg, env, front, doomed) == CleanupEvents(cfg, env, front, doomed - {k})
  {
    if front != [] {
      SameEvents(cfg, env, front[..|front| - 1], doomed, k);
    }
  }

  lemma {:induction false} CleanupEventFor(cfg: Config, env: Env, listing: seq<Key>, doomed: set<Key>, k: Key)
    requires k in doomed && k in listing
    ensures DeleteEvent(env, k) in CleanupEvents(cfg, env, listing, doomed)
  {
    if k != listing[|listing| - 1] {
      assert listing == listing[..|listing| - 1] + [listing[|listing| - 1]];
      CleanupEventFor(cfg, env, listing[..|listing| - 1], doomed, k);
    }
  }

  /**
   The cleanup reports each listed, controlled, inactive binding by exactly one event: deleted when the server accepts
   the call or has no such object, and an error otherwise.
   */
  lemma CleanupEventsConserved(cfg: Config, env: Env, cache: Store, active: set<string>, listing: seq<Key>)
    requires Listing(cfg, cache, listing)
    ensures var doomed := Doomed(cfg, env, cache, active);
            var events := CleanupEvents(cfg, env, listing, doomed);
            && |events| == |doomed|
            && forall k :: k in doomed ==>
                 Event(if env.delete(k) == Serve then Deleted else BindingError, k.name) in events
  {
    var doomed := Doomed(cfg, env, cache, active);
    CleanupEventCount(cfg, env, listing, doomed);
    forall k | k in doomed
      ensures DeleteEvent(env, k) in CleanupEvents(cfg, env, listing, doomed)
    {
      CleanupEventFor(cfg, env, listing, doomed, k);
    }
  }
}
