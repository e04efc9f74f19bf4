/**
 Delivery and reconciling joined: when a worker is done with a version it has read, the config of that version has been
 reconciled. Whatever failed before, the controller, left alone, ends with every cached config carried out on the server
 whose last reconcile met no failure and the upstream as it is.
 */
module EndToEnd {
  import opened Options
  import opened Groupers
  import opened Resolve
  import opened Api
  import opened Reconcile
  import opened PostState
  import opened BindingNames
  import opened Stabilise
  import Runs
  import opened Delivery

  /** The config behind each key and version, the upstream of the period, and the server's rules. */
  datatype World = World(config: (string, nat) -> Config, upstream: Option<Grouper>, rules: Rules)

  datatype Joint = Joint(delivery: State, store: Store)

  /** A step of the delivery; `env` and `cache` are what the reconcile meets if the step finishes one. */
  datatype Move = Move(step: Step, env: Env, cache: Store)

  /** The config whose reconcile the move finishes, if it finishes one. */
  function Finished(w: World, s: State, step: Step): Option<Config> {
    if step.Finish? && step.worker in s.workers && s.workers[step.worker].Busy? && s.workers[step.worker].read.Some?
    then Some(w.config(s.workers[step.worker].key, s.workers[step.worker].read.value))
    else None
  }

  ghost function Next(w: World, j: Joint, m: Move): Joint
    requires Enabled(j.delivery, m.step)
  {
    Joint(Delivery.Next(j.delivery, m.step),
          match Finished(w, j.delivery, m.step)
          case Some(cfg) => Reconciled(cfg, m.env, w.rules, m.cache, j.store)
          case None => j.store)
  }

  /** The lookups are ones that the config's memberships and the upstream of the period can give. */
  ghost predicate Answered(w: World, cfg: Config, env: Env) {
    forall i :: 0 <= i < |cfg.bindings| ==>
      LookupOf(cfg.memberships, w.upstream, cfg.bindings[i].group, env.lookup(i))
  }

  /** The reconcile that the move finishes met no failure, and nothing kept it from its target. */
  ghost predicate Clean(w: World, j: Joint, m: Move) {
    match Finished(w, j.delivery, m.step)
    case None => true
    case Some(cfg) =>
      && Answered(w, cfg, m.env) && FaultFree(cfg, m.env)
      && CurrentCache(cfg, m.env, w.rules, m.cache, j.store)
      && forall name :: Fillable(cfg, m.env, w.rules, j.store, name)
  }

  ghost predicate Wants(cfg: Config, k: Key) {
    exists i :: 0 <= i < |cfg.bindings| && k == KeyOf(cfg, NameAt(cfg, i))
  }

  /** However stale, the cache does not show as the config's own what has become another's. */
  ghost predicate Honest(cfg: Config, cache: Store, st: Store) {
    forall k :: AtHome(cfg, k) && !Wants(cfg, k) && k in cache && Owned(cfg, cache[k]) && k in st ==> Owned(cfg, st[k])
  }

  /** Configs of different keys have different uids and want no name in common, whatever their versions. */
  ghost predicate Separate(w: World) {
    forall key, v, key', v' {:trigger w.config(key, v), w.config(key', v')} :: key != key' ==>
      var a, b := w.config(key, v), w.config(key', v');
      a.uid != b.uid && Disjoint(a, b)
  }

  ghost predicate Disjoint(a: Config, b: Config) {
    forall k :: !(Wants(a, k) && Wants(b, k))
  }

  /** The config is carried out: its target is stored, and it owns nothing else but what unknown memberships hold. */
  ghost predicate CarriedOut(cfg: Config, env: Env, st: Store) {
    && (forall name :: name in Target(cfg, env) ==> At(st, KeyOf(cfg, name)) == Some(Target(cfg, env)[name]))
    && (forall k :: AtHome(cfg, k) && k in st && Owned(cfg, st[k]) ==> Listed(cfg, env, k.name))
  }

  ghost predicate Settled(w: World, cfg: Config, st: Store) {
    exists env :: Answered(w, cfg, env) && CarriedOut(cfg, env, st)
  }

  lemma ReconciledIsCarriedOut(cfg: Config, env: Env, rules: Rules, cache: Store, st: Store)
    requires FaultFree(cfg, env) && CurrentCache(cfg, env, rules, cache, st)
    requires forall name :: Fillable(cfg, env, rules, st, name)
    ensures CarriedOut(cfg, env, Reconciled(cfg, env, rules, cache, st))
  {
    var after := Reconciled(cfg, env, rules, cache, st);
    ReachesIff(cfg, env, rules, cache, st);
    forall k | AtHome(cfg, k) && k in after && Owned(cfg, after[k])
      ensures Listed(cfg, env, k.name)
    {
      assert At(after, k) == Expected(cfg, env, st, k);
    }
    forall name | name in Target(cfg, env)
      ensures At(after, KeyOf(cfg, name)) == Some(Target(cfg, env)[name])
    {
      assert At(after, KeyOf(cfg, name)) == Expected(cfg, env, st, KeyOf(cfg, name));
    }
  }

  lemma TargetIsWanted(cfg: Config, env: Env, name: string)
    requires name in Target(cfg, env)
    ensures Wants(cfg, KeyOf(cfg, name))
    ensures exists b, members :: Target(cfg, env)[name] == Desired(cfg, b, members)
  {
    OracleMeans(cfg, env, |cfg.bindings|, name);
    var i :| 0 <= i < |cfg.bindings| && GoodAt(cfg, env, i) && NameAt(cfg, i) == name
      && Target(cfg, env)[name] == DesiredAt(cfg, env, i);
    assert Target(cfg, env)[name] == Desired(cfg, cfg.bindings[i], env.lookup(i).members);
  }

  /** What one config wants, another of a different uid does not own. */
  lemma TargetIsNotOwned(cfg: Config, env: Env, name: string, other: Config)
    requires name in Target(cfg, env) && cfg.uid != other.uid
    ensures !Owned(other, Target(cfg, env)[name])
  {
    TargetIsWanted(cfg, env, name);
    var b, members :| Target(cfg, env)[name] == Desired(cfg, b, members);
    WrittenIsOwned(cfg, other, b, members);
  }

  /** A run leaves at a key what was there, or nothing, or what its config owns. */
  lemma LeftOrOwned(b: Config, env: Env, rules: Rules, cache: Store, st: Store, k: Key)
    ensures var after := Reconciled(b, env, rules, cache, st);
            k in after ==> At(after, k) == At(st, k) || exists c, members :: after[k] == Desired(b, c, members)
  {
    var after := Reconciled(b, env, rules, cache, st);
    RunFactorsByName(b, env, rules, cache, st, k);
    Runs.CellOrigin(b, env, rules, k.name, At(st, k), |b.bindings|);
    if k in after && At(after, k) != At(st, k) {
      var i :| 0 <= i < |b.bindings| && NameAt(b, i) == k.name && GoodAt(b, env, i)
        && At(after, k) == Some(DesiredAt(b, env, i));
      assert after[k] == Desired(b, b.bindings[i], env.lookup(i).members);
    }
  }

  /** Less than a current cache is asked of a reconcile for the sake of the others. */
  lemma CurrentIsHonest(cfg: Config, env: Env, rules: Rules, cache: Store, st: Store)
    requires CurrentCache(cfg, env, rules, cache, st)
    ensures Honest(cfg, cache, st)
  {
    forall k | AtHome(cfg, k) && !Wants(cfg, k)
      ensures AgreeAt(cache, st, k)
    {
      assert forall i :: 0 <= i < |cfg.bindings| ==> NameAt(cfg, i) != k.name;
      Untouched(cfg, env, rules, st, k);
    }
  }

  lemma Untouched(cfg: Config, env: Env, rules: Rules, st: Store, k: Key)
    requires AtHome(cfg, k) && forall i :: 0 <= i < |cfg.bindings| ==> NameAt(cfg, i) != k.name
    ensures CellAt(AfterBindings(cfg, env, rules, st), k) == Cell(At(st, k), false)
  {
    assert k == KeyOf(cfg, k.name);
    LoopFactors(cfg, env, rules, st, |cfg.bindings|, k);
    Runs.CellOrigin(cfg, env, rules, k.name, At(st, k), |cfg.bindings|);
    ActiveMeans(cfg, env, rules, st, k.name, |cfg.bindings|);
  }

  /** A reconcile of another config, whatever fails in it, leaves a carried-out one carried out. */
  lemma OthersStayCarriedOut(a: Config, env: Env, b: Config, env': Env, rules: Rules, cache: Store, st: Store)
    requires CarriedOut(a, env, st) && a.uid != b.uid && Disjoint(a, b) && Honest(b, cache, st)
    ensures CarriedOut(a, env, Reconciled(b, env', rules, cache, st))
  {
    var after := Reconciled(b, env', rules, cache, st);
    forall name | name in Target(a, env)
      ensures At(after, KeyOf(a, name)) == Some(Target(a, env)[name])
    {
      var k := KeyOf(a, name);
      TargetIsWanted(a, env, name);
      TargetIsNotOwned(a, env, name, b);
      assert !Wants(b, k);
      assert AtHome(b, k) ==> forall i :: 0 <= i < |b.bindings| ==> NameAt(b, i) != k.name;
      BystandersUnchanged(b, env', rules, cache, st, k);
    }
    forall k | AtHome(a, k) && k in after && Owned(a, after[k])
      ensures Listed(a, env, k.name)
    {
      LeftOrOwned(b, env', rules, cache, st, k);
      if c, members :| after[k] == Desired(b, c, members) {
        WrittenIsOwned(b, a, c, members);
      }
    }
  }

  // ---- Runs ----

  /** Any run of changes, polls, failures and reconciles; only the caches have to be honest. */
  ghost predicate Run(w: World, states: seq<Joint>, moves: seq<Move>) {
    && |states| == |moves| + 1 && Initial(states[0].delivery)
    && forall i :: 0 <= i < |moves| ==>
         && Enabled(states[i].delivery, moves[i].step)
         && (match Finished(w, states[i].delivery, moves[i].step)
             case Some(cfg) => Honest(cfg, moves[i].cache, states[i].store)
             case None => true)
         && states[i + 1] == Next(w, states[i], moves[i])
  }

  predicate Finishes(s: State, step: Step, key: string) {
    && step.Finish? && step.worker in s.workers && s.workers[step.worker].Busy?
    && s.workers[step.worker].key == key && s.workers[step.worker].read.Some?
  }

  /** The last reconcile of the key before the n-th state, if there was any, was clean. */
  ghost predicate LastIsClean(w: World, states: seq<Joint>, moves: seq<Move>, n: nat, key: string)
    requires n <= |moves| < |states|
  {
    n > 0 ==>
      if Finishes(states[n - 1].delivery, moves[n - 1].step, key) then Clean(w, states[n - 1], moves[n - 1])
      else LastIsClean(w, states, moves, n - 1, key)
  }

  lemma {:induction false} RunKeeps(w: World, states: seq<Joint>, moves: seq<Move>, n: nat)
    requires Run(w, states, moves) && n < |states|
    ensures Inv(states[n].delivery)
  {
    if n > 0 {
      RunKeeps(w, states, moves, n - 1);
      InvNext(states[n - 1].delivery, moves[n - 1].step);
    }
  }

  /** A config stays carried out through every move but the end of a reconcile of its own. */
  lemma SettledNext(w: World, j: Joint, m: Move, key: string, v: nat)
    requires Separate(w) && Enabled(j.delivery, m.step) && !Finishes(j.delivery, m.step, key)
    requires Settled(w, w.config(key, v), j.store)
    requires match Finished(w, j.delivery, m.step)
             case Some(cfg) => Honest(cfg, m.cache, j.store)
             case None => true
    ensures Settled(w, w.config(key, v), Next(w, j, m).store)
  {
    var cfg := w.config(key, v);
    match Finished(w, j.delivery, m.step)
    case None =>
    case Some(done) =>
      var env :| Answered(w, cfg, env) && CarriedOut(cfg, env, j.store);
      OthersStayCarriedOut(cfg, env, done, m.env, w.rules, m.cache, j.store);
  }

  /** Only the end of a reconcile of the key makes it up to date. */
  lemma StillUpToDate(s: State, step: Step, key: string)
    requires Inv(s) && Enabled(s, step) && UpToDate(Delivery.Next(s, step), key) && !Finishes(s, step, key)
    ensures UpToDate(s, key) && s.cache[key] == Delivery.Next(s, step).cache[key]
  {
  }

  /**
   In every state of every run, whatever was on the server at first and whatever failed, each config is carried out that
   was last handled at its cached version, if that last reconcile was clean.
   */
  lemma {:induction false} RunIsSettled(w: World, states: seq<Joint>, moves: seq<Move>, n: nat, key: string)
    requires Separate(w) && Run(w, states, moves) && n < |states|
    requires UpToDate(states[n].delivery, key) && LastIsClean(w, states, moves, n, key)
    ensures Settled(w, w.config(key, states[n].delivery.cache[key]), states[n].store)
  {
    if n > 0 {
      var j, m := states[n - 1], moves[n - 1];
      RunKeeps(w, states, moves, n - 1);
      if Finishes(j.delivery, m.step, key) {
        var cfg := w.config(key, states[n].delivery.cache[key]);
        assert Finished(w, j.delivery, m.step) == Some(cfg);
        ReconciledIsCarriedOut(cfg, m.env, w.rules, m.cache, j.store);
      } else {
        StillUpToDate(j.delivery, m.step, key);
        RunIsSettled(w, states, moves, n - 1, key);
        SettledNext(w, j, m, key, j.delivery.cache[key]);
      }
    }
  }

  /** From the point where nothing changes and nobody polls, a run makes only so many moves. */
  lemma {:induction false} ComesToRest(w: World, states: seq<Joint>, moves: seq<Move>, n: nat)
    requires Run(w, states, moves) && n < |states|
    requires forall i :: n <= i < |moves| ==> Internal(moves[i].step)
    ensures |moves| - n <= Work(states[n].delivery)
    decreases |moves| - n
  {
    if n < |moves| {
      RunKeeps(w, states, moves, n);
      InternalStepsEnd(states[n].delivery, moves[n].step);
      ComesToRest(w, states, moves, n + 1);
    }
  }

  /**
   Convergence from end to end: wherever such a run comes to rest before shutdown, every config in the cache whose last
   reconcile was clean is carried out on the server. By `ComesToRest` only changes and polls can put the rest off.
   */
  lemma RestMeansCarriedOut(w: World, states: seq<Joint>, moves: seq<Move>, n: nat, key: string)
    requires Separate(w) && Run(w, states, moves) && n < |states| && LastIsClean(w, states, moves, n, key)
    requires var s := states[n].delivery; Quiet(s) && !s.queue.down && s.workers.Keys != {} && key in s.cache
    ensures Settled(w, w.config(key, states[n].delivery.cache[key]), states[n].store)
  {
    RunKeeps(w, states, moves, n);
    QuietIsUpToDate(states[n].delivery, key);
    RunIsSettled(w, states, moves, n, key);
  }

  // ---- Which configs are separate ----

  /** Configs elsewhere, or whose names do not extend each other by a dash part, want no name in common. */
  lemma NamesKeepApart(a: Config, b: Config)
    requires a.scope != b.scope || (a.scope == Namespaced && a.ns != b.ns)
             || (a.name != b.name && !Extends(a.name, b.name) && !Extends(b.name, a.name))
    ensures Disjoint(a, b)
  {
    ConfigsMeetIff(a, b);
  }

  /** Two configs that want one name cannot both be carried out: each reconcile of the one undoes the other. */
  lemma SharedNameIsContested(a: Config, env: Env, b: Config, env': Env, st: Store, name: string, name': string)
    requires name in Target(a, env) && name' in Target(b, env') && KeyOf(a, name) == KeyOf(b, name') && a.uid != b.uid
    ensures !(CarriedOut(a, env, st) && CarriedOut(b, env', st))
  {
    TargetIsNotOwned(a, env, name, b);
    TargetIsWanted(b, env', name');
    var c, members :| Target(b, env')[name'] == Desired(b, c, members);
    WrittenIsOwned(b, b, c, members);
  }
}
