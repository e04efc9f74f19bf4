/** Convergence: what fault-free reconciles with a current cache reach, and that they then stay there. */
module Stabilise {
  import opened Errors
  import opened Options
  import opened Subjects
  import opened Api
  import opened Reconcile
  import opened PostState
  import opened BindingNames

  ghost predicate FaultFree(cfg: Config, env: Env) {
    && CleanupRuns(cfg, env)
    && (forall i: nat :: env.update(i) == Serve && env.create(i) == Serve)
    && (forall k: Key :: env.delete(k) == Serve)
  }

  /** The batch oracle of the controller's tests: the first binding of each name that has members, in one batch. */
  function Oracle(cfg: Config, env: Env, n: nat): map<string, Object>
    requires n <= |cfg.bindings|
  {
    if n == 0 then map[]
    else
      var before := Oracle(cfg, env, n - 1);
      if GoodAt(cfg, env, n - 1) && NameAt(cfg, n - 1) !in before
      then before[NameAt(cfg, n - 1) := DesiredAt(cfg, env, n - 1)]
      else before
  }

  function Target(cfg: Config, env: Env): map<string, Object> {
    Oracle(cfg, env, |cfg.bindings|)
  }

  predicate HeldName(cfg: Config, env: Env, name: string) {
    exists i :: 0 <= i < |cfg.bindings| && NameAt(cfg, i) == name && HeldAt(cfg, env, i)
  }

  /**
   What should be stored: the target, the held objects as they were, nothing else owned, and everyone else's objects.
   */
  function Expected(cfg: Config, env: Env, st: Store, k: Key): Option<Object> {
    if !AtHome(cfg, k) then At(st, k)
    else if k.name in Target(cfg, env) then Some(Target(cfg, env)[k.name])
    else if k in st && Owned(cfg, st[k]) && !HeldName(cfg, env, k.name) then None
    else At(st, k)
  }

  ghost predicate Reaches(cfg: Config, env: Env, st: Store, after: Store) {
    forall k :: At(after, k) == Expected(cfg, env, st, k)
  }

  /**
   The i-th binding is held before any binding of its name has members, and the j-th one could have filled the name.
   */
  predicate Shadows(cfg: Config, env: Env, i: nat, j: nat)
    requires i < |cfg.bindings| && j < |cfg.bindings|
  {
    && HeldAt(cfg, env, i) && GoodAt(cfg, env, j) && NameAt(cfg, i) == NameAt(cfg, j)
    && NameAt(cfg, i) !in Oracle(cfg, env, i)
  }

  predicate ShadowedName(cfg: Config, env: Env, name: string) {
    exists i, j ::
      0 <= i < |cfg.bindings| && 0 <= j < |cfg.bindings| && NameAt(cfg, i) == name && Shadows(cfg, env, i, j)
  }

  predicate NoShadow(cfg: Config, env: Env) {
    forall i, j :: 0 <= i < |cfg.bindings| && 0 <= j < |cfg.bindings| ==> !Shadows(cfg, env, i, j)
  }

  /** At cleanup time the lister shows the inactive names of the config's namespace as they are on the server. */
  ghost predicate CurrentCache(cfg: Config, env: Env, rules: Rules, cache: Store, st: Store) {
    var s := AfterBindings(cfg, env, rules, st);
    forall k :: AtHome(cfg, k) && k.name !in s.active ==> AgreeAt(cache, s.store, k)
  }

  /** A cache is current for one if it shows what the bindings have left. */
  lemma SomeCacheIsCurrent(cfg: Config, env: Env, rules: Rules, st: Store)
    ensures CurrentCache(cfg, env, rules, AfterBindings(cfg, env, rules, st).store, st)
  {
  }

  /** The server would refuse to write `o` over what it stores. */
  predicate Conflict(rules: Rules, was: Option<Object>, o: Object) {
    rules.fixedRoleRef && was.Some? && was.value.roleRef != o.roleRef
  }

  predicate Conflicting(cfg: Config, env: Env, rules: Rules, st: Store, name: string) {
    name in Target(cfg, env) && Conflict(rules, At(st, KeyOf(cfg, name)), Target(cfg, env)[name])
  }

  /** Some binding of the name that has members asks for this very roleRef. */
  predicate Fits(cfg: Config, env: Env, name: string, ref: RoleRef) {
    exists i ::
      0 <= i < |cfg.bindings| && GoodAt(cfg, env, i) && NameAt(cfg, i) == name && cfg.bindings[i].roleRef == ref
  }

  /** What is stored under a refused name is fit for another binding of that name. */
  predicate FitsOther(cfg: Config, env: Env, rules: Rules, st: Store, name: string) {
    Conflicting(cfg, env, rules, st, name) && Fits(cfg, env, name, st[KeyOf(cfg, name)].roleRef)
  }

  /** What is stored under a refused name is the config's own, fits no binding of the name, and none holds the name. */
  predicate Replaced(cfg: Config, env: Env, rules: Rules, st: Store, name: string) {
    && Conflicting(cfg, env, rules, st, name) && Owned(cfg, st[KeyOf(cfg, name)])
    && !HeldName(cfg, env, name) && !FitsOther(cfg, env, rules, st, name)
  }

  ghost predicate NoConflict(cfg: Config, env: Env, rules: Rules, st: Store) {
    forall name :: !Conflicting(cfg, env, rules, st, name)
  }

  lemma {:induction false} OracleGrows(cfg: Config, env: Env, m: nat, n: nat, name: string)
    requires m <= n <= |cfg.bindings| && name in Oracle(cfg, env, m)
    ensures name in Oracle(cfg, env, n) && Oracle(cfg, env, n)[name] == Oracle(cfg, env, m)[name]
  {
    if m < n {
      OracleGrows(cfg, env, m, n - 1, name);
    }
  }

  lemma {:induction false} OracleMeans(cfg: Config, env: Env, n: nat, name: string)
    requires n <= |cfg.bindings|
    ensures name in Oracle(cfg, env, n) <==> exists i :: 0 <= i < n && GoodAt(cfg, env, i) && NameAt(cfg, i) == name
    ensures name in Oracle(cfg, env, n) ==>
              exists i :: 0 <= i < n && GoodAt(cfg, env, i) && NameAt(cfg, i) == name
                          && Oracle(cfg, env, n)[name] == DesiredAt(cfg, env, i)
  {
    if n > 0 {
      OracleMeans(cfg, env, n - 1, name);
      if name in Oracle(cfg, env, n) && name !in Oracle(cfg, env, n - 1) {
        assert GoodAt(cfg, env, n - 1) && NameAt(cfg, n - 1) == name;
      }
    }
  }

  predicate HeldBelow(cfg: Config, env: Env, name: string, n: nat)
    requires n <= |cfg.bindings|
  {
    exists i :: 0 <= i < n && NameAt(cfg, i) == name && HeldAt(cfg, env, i)
  }

  lemma HeldBelowNext(cfg: Config, env: Env, name: string, i: nat)
    requires i < |cfg.bindings|
    ensures HeldBelow(cfg, env, name, i + 1)
            <==> HeldBelow(cfg, env, name, i) || (NameAt(cfg, i) == name && HeldAt(cfg, env, i))
  {
    if p :| 0 <= p < i && NameAt(cfg, p) == name && HeldAt(cfg, env, p) {
      assert HeldBelow(cfg, env, name, i + 1);
    }
  }

  lemma NotHeldBefore(cfg: Config, env: Env, j: nat)
    requires j < |cfg.bindings| && !ShadowedName(cfg, env, NameAt(cfg, j))
    requires GoodAt(cfg, env, j) && NameAt(cfg, j) !in Oracle(cfg, env, j)
    ensures !HeldBelow(cfg, env, NameAt(cfg, j), j)
  {
    forall i | 0 <= i < j && NameAt(cfg, i) == NameAt(cfg, j)
      ensures !HeldAt(cfg, env, i)
    {
      if NameAt(cfg, j) in Oracle(cfg, env, i) {
        OracleGrows(cfg, env, i, j, NameAt(cfg, j));
      } else {
        assert !Shadows(cfg, env, i, j);
      }
    }
  }

  /** Without faults a name follows the oracle, as long as no held binding and no refused roleRef comes first. */
  lemma {:induction false} CellFollowsOracle(cfg: Config, env: Env, rules: Rules, name: string, was: Option<Object>,
                                             n: nat)
    requires n <= |cfg.bindings| && FaultFree(cfg, env) && !ShadowedName(cfg, env, name)
    requires name in Target(cfg, env) ==> !Conflict(rules, was, Target(cfg, env)[name])
    ensures CellRun(cfg, env, rules, name, was, n) == OracleCell(cfg, env, name, was, n)
  {
    if n > 0 {
      CellFollowsOracle(cfg, env, rules, name, was, n - 1);
      FollowStep(cfg, env, rules, name, was, n - 1, CellRun(cfg, env, rules, name, was, n - 1),
                 CellRun(cfg, env, rules, name, was, n));
    }
  }

  /** What the oracle says about a name after `n` bindings. */
  function OracleCell(cfg: Config, env: Env, name: string, was: Option<Object>, n: nat): Cell
    requires n <= |cfg.bindings|
  {
    if name in Oracle(cfg, env, n) then Cell(Some(Oracle(cfg, env, n)[name]), true)
    else Cell(was, HeldBelow(cfg, env, name, n))
  }

  lemma FollowStep(cfg: Config, env: Env, rules: Rules, name: string, was: Option<Object>, i: nat, c: Cell, c': Cell)
    requires i < |cfg.bindings| && FaultFree(cfg, env) && !ShadowedName(cfg, env, name)
    requires name in Target(cfg, env) ==> !Conflict(rules, was, Target(cfg, env)[name])
    requires c == OracleCell(cfg, env, name, was, i) && c' == CellStep(cfg, env, rules, name, i, c)
    ensures c' == OracleCell(cfg, env, name, was, i + 1)
  {
    HeldBelowNext(cfg, env, name, i);
    if NameAt(cfg, i) == name && GoodAt(cfg, env, i) && name !in Oracle(cfg, env, i) {
      OracleGrows(cfg, env, i + 1, |cfg.bindings|, name);
      NotHeldBefore(cfg, env, i);
    }
  }

  lemma {:induction false} UntouchedCell(cfg: Config, env: Env, rules: Rules, name: string, was: Option<Object>, n: nat)
    requires n <= |cfg.bindings| && name !in Oracle(cfg, env, n)
    ensures CellRun(cfg, env, rules, name, was, n).obj == was
  {
    if n > 0 {
      UntouchedCell(cfg, env, rules, name, was, n - 1);
    }
  }

  /** A shadowed name is kept as it was, and kept from the cleanup. */
  lemma ShadowedCell(cfg: Config, env: Env, rules: Rules, name: string, was: Option<Object>)
    requires ShadowedName(cfg, env, name)
    ensures CellRun(cfg, env, rules, name, was, |cfg.bindings|) == Cell(was, true)
    ensures name in Target(cfg, env) && HeldName(cfg, env, name)
  {
    var i, j :| 0 <= i < |cfg.bindings| && 0 <= j < |cfg.bindings| && NameAt(cfg, i) == name && Shadows(cfg, env, i, j);
    UntouchedCell(cfg, env, rules, name, was, i);
    assert CellRun(cfg, env, rules, name, was, i + 1) == Cell(was, true);
    ActiveStays(cfg, env, rules, name, was, i + 1, |cfg.bindings|);
    OracleMeans(cfg, env, |cfg.bindings|, name);
  }

  lemma RefusedStep(cfg: Config, env: Env, rules: Rules, st: Store, name: string, i: nat, c: Cell)
    requires i < |cfg.bindings| && Conflicting(cfg, env, rules, st, name) && !FitsOther(cfg, env, rules, st, name)
    requires c.obj == At(st, KeyOf(cfg, name))
    ensures CellStep(cfg, env, rules, name, i, c)
            == c.(active := c.active || (NameAt(cfg, i) == name && HeldAt(cfg, env, i)))
  {
  }

  /** A refused name is kept as it was; only a held binding of the name keeps it from the cleanup. */
  lemma {:induction false} ConflictingCell(cfg: Config, env: Env, rules: Rules, st: Store, name: string, n: nat)
    requires n <= |cfg.bindings| && Conflicting(cfg, env, rules, st, name) && !FitsOther(cfg, env, rules, st, name)
    ensures CellRun(cfg, env, rules, name, At(st, KeyOf(cfg, name)), n)
            == Cell(At(st, KeyOf(cfg, name)), HeldBelow(cfg, env, name, n))
  {
    if n > 0 {
      var was := At(st, KeyOf(cfg, name));
      ConflictingCell(cfg, env, rules, st, name, n - 1);
      RefusedStep(cfg, env, rules, st, name, n - 1, CellRun(cfg, env, rules, name, was, n - 1));
      HeldBelowNext(cfg, env, name, n - 1);
    }
  }

  /** On a server that never changes a stored roleRef no verdict, however it falls, changes it within the loop. */
  lemma {:induction false} RoleRefKept(cfg: Config, env: Env, rules: Rules, name: string, was: Option<Object>, n: nat)
    requires n <= |cfg.bindings| && rules.fixedRoleRef && was.Some?
    ensures var obj := CellRun(cfg, env, rules, name, was, n).obj; obj.Some? && obj.value.roleRef == was.value.roleRef
  {
    if n > 0 {
      RoleRefKept(cfg, env, rules, name, was, n - 1);
    }
  }

  // ---- One reconcile ----

  lemma StabilisesAt(cfg: Config, env: Env, rules: Rules, cache: Store, st: Store, k: Key)
    requires FaultFree(cfg, env) && CurrentCache(cfg, env, rules, cache, st)
    requires !ShadowedName(cfg, env, k.name) && !Conflicting(cfg, env, rules, st, k.name)
    ensures At(Reconciled(cfg, env, rules, cache, st), k) == Expected(cfg, env, st, k)
  {
    RunFactorsByName(cfg, env, rules, cache, st, k);
    if AtHome(cfg, k) {
      assert k == KeyOf(cfg, k.name);
      CellFollowsOracle(cfg, env, rules, k.name, At(st, k), |cfg.bindings|);
      LoopFactors(cfg, env, rules, st, |cfg.bindings|, k);
      var c := CellRun(cfg, env, rules, k.name, At(st, k), |cfg.bindings|);
      if !c.active {
        assert AgreeAt(cache, AfterBindings(cfg, env, rules, st).store, k);
      }
    }
  }

  /**
   A refused object is deleted by the very run that was refused exactly if the config owns it, it fits no other binding
   of the name, and no binding holds the name; if it fits none and is not deleted, it stays as it was.
   */
  lemma RefusedIsCleared(cfg: Config, env: Env, rules: Rules, cache: Store, st: Store, name: string)
    requires FaultFree(cfg, env) && CurrentCache(cfg, env, rules, cache, st) && Conflicting(cfg, env, rules, st, name)
    ensures var k, after := KeyOf(cfg, name), Reconciled(cfg, env, rules, cache, st);
            && (k !in after <==> Replaced(cfg, env, rules, st, name))
            && (k in after && !FitsOther(cfg, env, rules, st, name) ==> after[k] == st[k])
  {
    var k := KeyOf(cfg, name);
    if FitsOther(cfg, env, rules, st, name) {
      FittedStays(cfg, env, rules, cache, st, name);
    } else {
      ConflictingCell(cfg, env, rules, st, name, |cfg.bindings|);
      RunFactorsByName(cfg, env, rules, cache, st, k);
      LoopFactors(cfg, env, rules, st, |cfg.bindings|, k);
      if !HeldName(cfg, env, name) {
        assert AgreeAt(cache, AfterBindings(cfg, env, rules, st).store, k);
      }
    }
  }

  /** A refused run does not reach the target of the name, whatever fails and whatever else competes for it. */
  lemma RefusedMisses(cfg: Config, env: Env, rules: Rules, cache: Store, st: Store, name: string)
    requires Conflicting(cfg, env, rules, st, name)
    ensures At(Reconciled(cfg, env, rules, cache, st), KeyOf(cfg, name)) != Some(Target(cfg, env)[name])
  {
    var k := KeyOf(cfg, name);
    RunFactorsByName(cfg, env, rules, cache, st, k);
    RoleRefKept(cfg, env, rules, name, At(st, k), |cfg.bindings|);
  }

  lemma FittedIsActive(cfg: Config, env: Env, rules: Rules, st: Store, name: string)
    requires FaultFree(cfg, env) && FitsOther(cfg, env, rules, st, name)
    ensures CellRun(cfg, env, rules, name, At(st, KeyOf(cfg, name)), |cfg.bindings|).active
  {
    var k := KeyOf(cfg, name);
    var i :| 0 <= i < |cfg.bindings| && GoodAt(cfg, env, i) && NameAt(cfg, i) == name
      && cfg.bindings[i].roleRef == st[k].roleRef;
    RoleRefKept(cfg, env, rules, name, At(st, k), i);
    assert CellRun(cfg, env, rules, name, At(st, k), i + 1).active;
    ActiveStays(cfg, env, rules, name, At(st, k), i + 1, |cfg.bindings|);
  }

  /** If what is stored fits another binding of the refused name, that binding is written in its place. */
  lemma FittedStays(cfg: Config, env: Env, rules: Rules, cache: Store, st: Store, name: string)
    requires FaultFree(cfg, env) && FitsOther(cfg, env, rules, st, name)
    ensures var k, after := KeyOf(cfg, name), Reconciled(cfg, env, rules, cache, st);
            k in after && after[k].roleRef == st[k].roleRef
  {
    var k := KeyOf(cfg, name);
    FittedIsActive(cfg, env, rules, st, name);
    RoleRefKept(cfg, env, rules, name, At(st, k), |cfg.bindings|);
    RunFactorsByName(cfg, env, rules, cache, st, k);
  }

  lemma ShadowedStays(cfg: Config, env: Env, rules: Rules, cache: Store, st: Store, k: Key)
    requires ShadowedName(cfg, env, k.name)
    ensures At(Reconciled(cfg, env, rules, cache, st), k) == At(st, k)
    ensures k.name in Target(cfg, env) && HeldName(cfg, env, k.name)
  {
    ShadowedCell(cfg, env, rules, k.name, At(st, k));
    RunFactorsByName(cfg, env, rules, cache, st, k);
  }

  /** One fault-free reconcile with a current cache reaches the oracle's target from any server state. */
  lemma Stabilises(cfg: Config, env: Env, rules: Rules, cache: Store, st: Store)
    requires FaultFree(cfg, env) && NoShadow(cfg, env) && NoConflict(cfg, env, rules, st)
    requires CurrentCache(cfg, env, rules, cache, st)
    ensures Reaches(cfg, env, st, Reconciled(cfg, env, rules, cache, st))
  {
    forall k
      ensures At(Reconciled(cfg, env, rules, cache, st), k) == Expected(cfg, env, st, k)
    {
      StabilisesAt(cfg, env, rules, cache, st, k);
    }
  }

  /**
   Nothing keeps one run from filling the name: a shadowed name is as it should be already, and none other is refused.
   */
  predicate Fillable(cfg: Config, env: Env, rules: Rules, st: Store, name: string) {
    name in Target(cfg, env) ==>
      if ShadowedName(cfg, env, name) then At(st, KeyOf(cfg, name)) == Some(Target(cfg, env)[name])
      else !Conflicting(cfg, env, rules, st, name)
  }

  /**
   Exactly when one fault-free reconcile with a current cache reaches the target, from any server state: every name that
   a binding of unknown membership shadows holds its object already, and every other name is not refused by the server.
   */
  lemma ReachesIff(cfg: Config, env: Env, rules: Rules, cache: Store, st: Store)
    requires FaultFree(cfg, env) && CurrentCache(cfg, env, rules, cache, st)
    ensures Reaches(cfg, env, st, Reconciled(cfg, env, rules, cache, st))
            <==> forall name :: Fillable(cfg, env, rules, st, name)
  {
    var after := Reconciled(cfg, env, rules, cache, st);
    forall k
      ensures At(after, k) == Expected(cfg, env, st, k) <==> !AtHome(cfg, k) || Fillable(cfg, env, rules, st, k.name)
    {
      ReachesAtIff(cfg, env, rules, cache, st, k);
    }
    if name :| !Fillable(cfg, env, rules, st, name) {
      assert At(after, KeyOf(cfg, name)) != Expected(cfg, env, st, KeyOf(cfg, name));
    }
  }

  lemma ReachesAtIff(cfg: Config, env: Env, rules: Rules, cache: Store, st: Store, k: Key)
    requires FaultFree(cfg, env) && CurrentCache(cfg, env, rules, cache, st)
    ensures At(Reconciled(cfg, env, rules, cache, st), k) == Expected(cfg, env, st, k)
            <==> !AtHome(cfg, k) || Fillable(cfg, env, rules, st, k.name)
  {
    RunFactorsByName(cfg, env, rules, cache, st, k);
    if AtHome(cfg, k) {
      assert k == KeyOf(cfg, k.name);
      if ShadowedName(cfg, env, k.name) {
        ShadowedStays(cfg, env, rules, cache, st, k);
      } else if Conflicting(cfg, env, rules, st, k.name) {
        RefusedMisses(cfg, env, rules, cache, st, k.name);
      } else {
        StabilisesAt(cfg, env, rules, cache, st, k);
      }
    }
  }

  predicate Controlled(cfg: Config, o: Object) {
    ControlledBy(o.owners, cfg.uid)
  }

  predicate Listed(cfg: Config, env: Env, name: string) {
    name in Target(cfg, env) || HeldName(cfg, env, name)
  }

  /** A name that is neither wanted nor held ends as it should, whatever becomes of the others. */
  lemma UnlistedAt(cfg: Config, env: Env, rules: Rules, cache: Store, st: Store, k: Key)
    requires FaultFree(cfg, env) && CurrentCache(cfg, env, rules, cache, st) && !Listed(cfg, env, k.name)
    ensures At(Reconciled(cfg, env, rules, cache, st), k) == Expected(cfg, env, st, k)
  {
    if ShadowedName(cfg, env, k.name) {
      ShadowedStays(cfg, env, rules, cache, st, k);
    }
    StabilisesAt(cfg, env, rules, cache, st, k);
  }

  /**
   The bindings *controlled* by the config are exactly the wanted ones after a reconcile if and only if no controlled
   but unwanted object had lost its owner label; the cleanup never lists those.
   */
  lemma ControlledAreWantedIff(cfg: Config, env: Env, rules: Rules, cache: Store, st: Store)
    requires FaultFree(cfg, env) && CurrentCache(cfg, env, rules, cache, st)
    ensures var after := Reconciled(cfg, env, rules, cache, st);
            (forall k :: AtHome(cfg, k) && k in after && Controlled(cfg, after[k]) ==> Listed(cfg, env, k.name))
            <==> (forall k :: AtHome(cfg, k) && k in st && Controlled(cfg, st[k]) && !Listed(cfg, env, k.name)
                       ==> Selected(st[k], cfg.name))
  {
    var after := Reconciled(cfg, env, rules, cache, st);
    forall k | AtHome(cfg, k) && !Listed(cfg, env, k.name)
      ensures At(after, k) == if k in st && Owned(cfg, st[k]) then None else At(st, k)
    {
      UnlistedAt(cfg, env, rules, cache, st, k);
    }
  }

  // ---- Running again ----

  /** The same answers, up to the walks taken while normalising and the text of errors. */
  ghost predicate SameInputs(cfg: Config, env: Env, env': Env) {
    forall i :: 0 <= i < |cfg.bindings| ==>
      if env.lookup(i).Found? then SameMembers(env.lookup(i), env'.lookup(i))
      else
        && env'.lookup(i).Failed?
        && (IsUnknownMemberships(env.lookup(i).err) <==> IsUnknownMemberships(env'.lookup(i).err))
  }

  lemma SameInputsAt(cfg: Config, env: Env, env': Env, i: nat)
    requires i < |cfg.bindings| && SameInputs(cfg, env, env')
    ensures GoodAt(cfg, env, i) <==> GoodAt(cfg, env', i)
    ensures HeldAt(cfg, env, i) <==> HeldAt(cfg, env', i)
    ensures GoodAt(cfg, env, i) ==> Alike(DesiredAt(cfg, env, i), DesiredAt(cfg, env', i))
  {
    if env.lookup(i).Found? {
      var s, t := env.lookup(i).members, env'.lookup(i).members;
      CanonicalNames(s, t, Elems(s));
      assert |Names(s)| == |Names(t)|;
    }
  }

  lemma {:induction false} SameInputsSameOracle(cfg: Config, env: Env, env': Env, n: nat)
    requires n <= |cfg.bindings| && SameInputs(cfg, env, env')
    ensures Oracle(cfg, env, n).Keys == Oracle(cfg, env', n).Keys
    ensures forall name :: name in Oracle(cfg, env, n) ==> Alike(Oracle(cfg, env, n)[name], Oracle(cfg, env', n)[name])
  {
    if n > 0 {
      SameInputsSameOracle(cfg, env, env', n - 1);
      SameInputsAt(cfg, env, env', n - 1);
    }
  }

  ghost predicate AlikeAt(st: Store, st': Store, k: Key) {
    (k in st <==> k in st') && (k in st ==> st[k] == st'[k] || Alike(st[k], st'[k]))
  }

  lemma ShadowCarries(cfg: Config, env: Env, env': Env, name: string)
    requires SameInputs(cfg, env, env')
    ensures ShadowedName(cfg, env, name) <==> ShadowedName(cfg, env', name)
  {
    forall i, j | 0 <= i < |cfg.bindings| && 0 <= j < |cfg.bindings|
      ensures Shadows(cfg, env, i, j) <==> Shadows(cfg, env', i, j)
    {
      SameInputsAt(cfg, env, env', i);
      SameInputsAt(cfg, env, env', j);
      SameInputsSameOracle(cfg, env, env', i);
      assert NameAt(cfg, i) in Oracle(cfg, env, i).Keys <==> NameAt(cfg, i) in Oracle(cfg, env', i).Keys;
    }
  }

  lemma HeldNameCarries(cfg: Config, env: Env, env': Env, name: string)
    requires SameInputs(cfg, env, env')
    ensures HeldName(cfg, env, name) <==> HeldName(cfg, env', name)
  {
  }

  lemma ConflictCarries(cfg: Config, env: Env, env': Env, rules: Rules, st: Store, name: string)
    requires SameInputs(cfg, env, env')
    ensures Conflicting(cfg, env, rules, st, name) <==> Conflicting(cfg, env', rules, st, name)
    ensures FitsOther(cfg, env, rules, st, name) <==> FitsOther(cfg, env', rules, st, name)
  {
    SameInputsSameOracle(cfg, env, env', |cfg.bindings|);
    forall i | 0 <= i < |cfg.bindings|
      ensures GoodAt(cfg, env, i) <==> GoodAt(cfg, env', i)
    {
      SameInputsAt(cfg, env, env', i);
    }
    assert name in Target(cfg, env).Keys <==> name in Target(cfg, env').Keys;
  }

  // ---- A server that never changes a stored roleRef ----

  /** What is in the way under the name, if anything is, the first of two runs deletes. */
  predicate Clearable(cfg: Config, env: Env, rules: Rules, st: Store, name: string) {
    Conflicting(cfg, env, rules, st, name) ==> Replaced(cfg, env, rules, st, name)
  }

  /** Two runs leave a name as it was if it is shadowed, or refused and not clearable, and as it should be otherwise. */
  lemma TwoRunsAt(cfg: Config, env: Env, env': Env, rules: Rules, cache: Store, cache': Store, st: Store, k: Key)
    requires FaultFree(cfg, env) && CurrentCache(cfg, env, rules, cache, st)
    requires FaultFree(cfg, env') && SameInputs(cfg, env, env')
    requires CurrentCache(cfg, env', rules, cache', Reconciled(cfg, env, rules, cache, st))
    requires ShadowedName(cfg, env, k.name) || !FitsOther(cfg, env, rules, st, k.name)
    ensures var twice := Reconciled(cfg, env', rules, cache', Reconciled(cfg, env, rules, cache, st));
            At(twice, k) ==
            if AtHome(cfg, k) && (ShadowedName(cfg, env, k.name) || !Clearable(cfg, env, rules, st, k.name))
            then At(st, k)
            else Expected(cfg, env', st, k)
  {
    var once := Reconciled(cfg, env, rules, cache, st);
    var home := KeyOf(cfg, k.name);
    ShadowCarries(cfg, env, env', k.name);
    ConflictCarries(cfg, env, env', rules, once, k.name);
    HeldNameCarries(cfg, env, env', k.name);
    SameInputsSameOracle(cfg, env, env', |cfg.bindings|);
    RunFactorsByName(cfg, env, rules, cache, st, k);
    RunFactorsByName(cfg, env', rules, cache', once, k);
    if ShadowedName(cfg, env, k.name) {
      ShadowedStays(cfg, env, rules, cache, st, k);
      ShadowedStays(cfg, env', rules, cache', once, k);
    } else {
      if Conflicting(cfg, env, rules, st, k.name) {
        RefusedIsCleared(cfg, env, rules, cache, st, k.name);
      } else {
        StabilisesAt(cfg, env, rules, cache, st, home);
        StabilisesAt(cfg, env, rules, cache, st, k);
      }
      if Conflicting(cfg, env', rules, once, k.name) {
        RefusedIsCleared(cfg, env', rules, cache', once, k.name);
      } else {
        StabilisesAt(cfg, env', rules, cache', once, k);
      }
    }
  }

  /** Nothing keeps two runs from filling the name. */
  predicate FillableInTwo(cfg: Config, env: Env, env': Env, rules: Rules, st: Store, name: string) {
    name in Target(cfg, env') ==>
      if ShadowedName(cfg, env, name) then At(st, KeyOf(cfg, name)) == Some(Target(cfg, env')[name])
      else Clearable(cfg, env, rules, st, name)
  }

  /**
   Exactly when two reconciles reach the target, whatever walks the second one takes: every refused object is owned by
   the config, not held and fits no other binding, so that the first run deletes it and the second creates it anew, and
   every shadowed name holds its object already.
   */
  lemma TwoRunsConverge(cfg: Config, env: Env, env': Env, rules: Rules, cache: Store, cache': Store, st: Store)
    requires FaultFree(cfg, env) && CurrentCache(cfg, env, rules, cache, st)
    requires FaultFree(cfg, env') && SameInputs(cfg, env, env')
    requires CurrentCache(cfg, env', rules, cache', Reconciled(cfg, env, rules, cache, st))
    ensures Reaches(cfg, env', st, Reconciled(cfg, env', rules, cache', Reconciled(cfg, env, rules, cache, st)))
            <==> forall name :: FillableInTwo(cfg, env, env', rules, st, name)
  {
    var twice := Reconciled(cfg, env', rules, cache', Reconciled(cfg, env, rules, cache, st));
    forall k
      ensures At(twice, k) == Expected(cfg, env', st, k)
              <==> !AtHome(cfg, k) || FillableInTwo(cfg, env, env', rules, st, k.name)
    {
      TwoRunsAtIff(cfg, env, env', rules, cache, cache', st, k);
    }
    if name :| !FillableInTwo(cfg, env, env', rules, st, name) {
      assert At(twice, KeyOf(cfg, name)) != Expected(cfg, env', st, KeyOf(cfg, name));
    }
  }

  lemma TwoRunsAtIff(cfg: Config, env: Env, env': Env, rules: Rules, cache: Store, cache': Store, st: Store, k: Key)
    requires FaultFree(cfg, env) && CurrentCache(cfg, env, rules, cache, st)
    requires FaultFree(cfg, env') && SameInputs(cfg, env, env')
    requires CurrentCache(cfg, env', rules, cache', Reconciled(cfg, env, rules, cache, st))
    ensures At(Reconciled(cfg, env', rules, cache', Reconciled(cfg, env, rules, cache, st)), k)
            == Expected(cfg, env', st, k)
            <==> !AtHome(cfg, k) || FillableInTwo(cfg, env, env', rules, st, k.name)
  {
    var once := Reconciled(cfg, env, rules, cache, st);
    ConflictCarries(cfg, env, env', rules, st, k.name);
    SameInputsSameOracle(cfg, env, env', |cfg.bindings|);
    if AtHome(cfg, k) && !ShadowedName(cfg, env, k.name) && FitsOther(cfg, env, rules, st, k.name) {
      assert k == KeyOf(cfg, k.name);
      FittedStays(cfg, env, rules, cache, st, k.name);
      ConflictCarries(cfg, env, env', rules, once, k.name);
      RefusedMisses(cfg, env', rules, cache', once, k.name);
    } else if AtHome(cfg, k) {
      assert k == KeyOf(cfg, k.name);
      TwoRunsAt(cfg, env, env', rules, cache, cache', st, k);
      if ShadowedName(cfg, env, k.name) {
        ShadowedStays(cfg, env, rules, cache, st, k);
      }
    } else {
      RunFactorsByName(cfg, env, rules, cache, st, k);
      RunFactorsByName(cfg, env', rules, cache', once, k);
    }
  }

  // ---- Polling ----

  /** On a server with fixed roleRefs only the roleRef that is stored decides which bindings of a name are written. */
  lemma {:induction false} SameRefCells(cfg: Config, env: Env, env': Env, rules: Rules, name: string, o: Object,
                                        o': Object, n: nat)
    requires n <= |cfg.bindings| && rules.fixedRoleRef && o.roleRef == o'.roleRef
    requires FaultFree(cfg, env) && FaultFree(cfg, env') && SameInputs(cfg, env, env')
    ensures var c := CellRun(cfg, env, rules, name, Some(o), n);
            var c' := CellRun(cfg, env', rules, name, Some(o'), n);
            && c.active == c'.active
            && ((c.obj == Some(o) && c'.obj == Some(o')) || (c.active && BothWritten(env, env', c.obj, c'.obj)))
  {
    if n > 0 {
      SameRefCells(cfg, env, env', rules, name, o, o', n - 1);
      SameInputsAt(cfg, env, env', n - 1);
    }
  }

  ghost predicate BothWritten(env: Env, env': Env, obj: Option<Object>, obj': Option<Object>) {
    obj.Some? && obj'.Some? && Alike(obj'.value, obj.value) && (env == env' ==> obj == obj')
  }

  lemma FittedAgain(cfg: Config, env: Env, env': Env, rules: Rules, cache: Store, cache': Store, st: Store, k: Key)
    requires FaultFree(cfg, env) && FaultFree(cfg, env') && SameInputs(cfg, env, env')
    requires AtHome(cfg, k) && FitsOther(cfg, env, rules, st, k.name)
    ensures var once := Reconciled(cfg, env, rules, cache, st);
            var twice := Reconciled(cfg, env', rules, cache', once);
            AlikeAt(twice, once, k) && (env == env' ==> AgreeAt(twice, once, k))
  {
    var once := Reconciled(cfg, env, rules, cache, st);
    assert k == KeyOf(cfg, k.name);
    FittedIsActive(cfg, env, rules, st, k.name);
    FittedStays(cfg, env, rules, cache, st, k.name);
    SameRefCells(cfg, env, env', rules, k.name, st[k], once[k], |cfg.bindings|);
    RunFactorsByName(cfg, env, rules, cache, st, k);
    RunFactorsByName(cfg, env', rules, cache', once, k);
  }

  /** Where nothing is refused, a second run changes nothing. */
  lemma SettledAgain(cfg: Config, env: Env, env': Env, rules: Rules, cache: Store, cache': Store, st: Store, k: Key)
    requires FaultFree(cfg, env) && CurrentCache(cfg, env, rules, cache, st)
    requires FaultFree(cfg, env') && SameInputs(cfg, env, env')
    requires CurrentCache(cfg, env', rules, cache', Reconciled(cfg, env, rules, cache, st))
    requires !ShadowedName(cfg, env, k.name) && !Conflicting(cfg, env, rules, st, k.name)
    ensures var once := Reconciled(cfg, env, rules, cache, st);
            var twice := Reconciled(cfg, env', rules, cache', once);
            AlikeAt(twice, once, k) && (env == env' ==> AgreeAt(twice, once, k))
  {
    var once := Reconciled(cfg, env, rules, cache, st);
    ShadowCarries(cfg, env, env', k.name);
    SameInputsSameOracle(cfg, env, env', |cfg.bindings|);
    StabilisesAt(cfg, env, rules, cache, st, k);
    StabilisesAt(cfg, env, rules, cache, st, KeyOf(cfg, k.name));
    assert !Conflicting(cfg, env', rules, once, k.name);
    StabilisesAt(cfg, env', rules, cache', once, k);
    HeldNameCarries(cfg, env, env', k.name);
  }

  /**
   A second reconcile with the same inputs adds, removes and changes nothing, but for the order of subjects that share a
   Name, exactly unless the first one had to delete what was in the way; then the second creates what is wanted.
   */
  lemma SecondRunChangesNothingIff(cfg: Config, env: Env, env': Env, rules: Rules, cache: Store, cache': Store,
                                   st: Store, k: Key)
    requires FaultFree(cfg, env) && CurrentCache(cfg, env, rules, cache, st)
    requires FaultFree(cfg, env') && SameInputs(cfg, env, env')
    requires CurrentCache(cfg, env', rules, cache', Reconciled(cfg, env, rules, cache, st))
    ensures var once := Reconciled(cfg, env, rules, cache, st);
            var twice := Reconciled(cfg, env', rules, cache', once);
            if AtHome(cfg, k) && Replaced(cfg, env, rules, st, k.name)
            then k !in once && k in twice && At(twice, k) == Expected(cfg, env', st, k)
            else AlikeAt(twice, once, k) && (env == env' ==> AgreeAt(twice, once, k))
  {
    var once := Reconciled(cfg, env, rules, cache, st);
    var twice := Reconciled(cfg, env', rules, cache', once);
    ShadowCarries(cfg, env, env', k.name);
    if !AtHome(cfg, k) {
      RunFactorsByName(cfg, env', rules, cache', once, k);
    } else if ShadowedName(cfg, env, k.name) {
      ShadowedStays(cfg, env, rules, cache, st, k);
      ShadowedStays(cfg, env', rules, cache', once, k);
    } else if FitsOther(cfg, env, rules, st, k.name) {
      FittedAgain(cfg, env, env', rules, cache, cache', st, k);
    } else if Conflicting(cfg, env, rules, st, k.name) {
      assert k == KeyOf(cfg, k.name);
      RefusedIsCleared(cfg, env, rules, cache, st, k.name);
      TwoRunsAt(cfg, env, env', rules, cache, cache', st, k);
      SameInputsSameOracle(cfg, env, env', |cfg.bindings|);
    } else {
      SettledAgain(cfg, env, env', rules, cache, cache', st, k);
    }
  }
}
