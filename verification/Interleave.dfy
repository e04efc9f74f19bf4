/**
 Two reconciles at the same time. The namespaced and the cluster worker run concurrently; their API calls interleave in
 any order. A reconcile is cut into single API calls, and runs over disjoint objects are shown to commute.
 */
module Interleave {
  import opened Options
  import opened Api
  import opened Reconcile
  import opened PostState

  /** Where a reconcile stands: before the update of binding i, before its create, in the cleanup, or finished. */
  datatype Pc = Updating(i: nat) | Creating(i: nat) | Sweeping(todo: seq<Key>) | Halted

  datatype Proc = Proc(pc: Pc, active: set<string>)

  /** The fixed inputs of one reconcile; `listing` is the order in which the lister returns the selected objects. */
  datatype Job = Job(cfg: Config, env: Env, cache: Store, listing: seq<Key>)

  ghost predicate ValidJob(job: Job) {
    Listing(job.cfg, job.cache, job.listing)
  }

  predicate ValidProc(job: Job, p: Proc) {
    match p.pc
    case Updating(i) => i <= |job.cfg.bindings|
    case Creating(i) => i < |job.cfg.bindings| && GoodAt(job.cfg, job.env, i)
    case Sweeping(todo) => forall k :: k in todo ==> k in job.listing && OwnedInCache(job, k)
    case Halted => true
  }

  predicate OwnedInCache(job: Job, k: Key) {
    k in job.cache && Owned(job.cfg, job.cache[k])
  }

  const START := Proc(Updating(0), {})

  /** The deletions the cleanup will issue, in listing order. */
  function Todo(job: Job, listing: seq<Key>, active: set<string>): seq<Key> {
    if listing == [] then []
    else
      (if OwnedInCache(job, listing[0]) && listing[0].name !in active then [listing[0]] else [])
      + Todo(job, listing[1..], active)
  }

  /** Up to and including the next API call. */
  function Call(job: Job, rules: Rules, p: Proc, st: Store): (Proc, Store)
    requires ValidProc(job, p)
  {
    var cfg, env := job.cfg, job.env;
    match p.pc
    case Updating(i) =>
      if i == |cfg.bindings| then
        (p.(pc := if CleanupRuns(cfg, env) then Sweeping(Todo(job, job.listing, p.active)) else Halted), st)
      else (
        match Decide(cfg, cfg.bindings[i], env.lookup(i), p.active)
        case Held => (Proc(Updating(i + 1), p.active + {NameAt(cfg, i)}), st)
        case Write(obj) =>
          var (st', reply) := Update(rules, st, KeyOf(cfg, NameAt(cfg, i)), obj, env.update(i));
          (match reply
           case Done => Proc(Updating(i + 1), p.active + {NameAt(cfg, i)})
           case Missing => p.(pc := Creating(i))
           case Refused => p.(pc := Updating(i + 1)), st')
        case _ => (p.(pc := Updating(i + 1)), st))
    case Creating(i) =>
      var (st', reply) := Create(rules, st, KeyOf(cfg, NameAt(cfg, i)), DesiredAt(cfg, env, i), env.create(i));
      (Proc(Updating(i + 1), if reply == Done then p.active + {NameAt(cfg, i)} else p.active), st')
    case Sweeping(todo) =>
      if todo == [] then (p.(pc := Halted), st)
      else (p.(pc := Sweeping(todo[1..])), Delete(st, todo[0], env.delete(todo[0])).0)
    case Halted => (p, st)
  }

  function Left(job: Job, p: Proc): nat
    requires ValidProc(job, p)
  {
    match p.pc
    case Updating(i) => 2 * (|job.cfg.bindings| - i) + |job.listing| + 2
    case Creating(i) => 2 * (|job.cfg.bindings| - i) + |job.listing| + 1
    case Sweeping(todo) => |todo| + 1
    case Halted => 0
  }

  lemma {:induction false} TodoIsShort(job: Job, listing: seq<Key>, active: set<string>)
    ensures |Todo(job, listing, active)| <= |listing|
    ensures forall k :: k in Todo(job, listing, active) <==> k in listing && OwnedInCache(job, k) && k.name !in active
  {
    if listing != [] {
      TodoIsShort(job, listing[1..], active);
      assert listing == [listing[0]] + listing[1..];
    }
  }

  lemma CallAdvances(job: Job, rules: Rules, p: Proc, st: Store)
    requires ValidProc(job, p)
    ensures var (p', _) := Call(job, rules, p, st); ValidProc(job, p') && (p.pc.Halted? || Left(job, p') < Left(job, p))
  {
    TodoIsShort(job, job.listing, p.active);
  }

  /** Running alone until the end. */
  function Alone(job: Job, rules: Rules, p: Proc, st: Store): Store
    requires ValidProc(job, p)
    decreases Left(job, p)
  {
    if p.pc.Halted? then st
    else
      CallAdvances(job, rules, p, st);
      var (p', st') := Call(job, rules, p, st);
      Alone(job, rules, p', st')
  }

  // ---- The calls of one reconcile add up to the reconcile ----

  lemma {:induction false} AloneSweeps(job: Job, rules: Rules, p: Proc, st: Store)
    requires ValidProc(job, p) && p.pc.Sweeping?
    ensures Alone(job, rules, p, st) == Sweep(job.env, st, set k | k in p.pc.todo)
    decreases |p.pc.todo|
  {
    var todo := p.pc.todo;
    if todo == [] {
      assert Call(job, rules, p, st) == (p.(pc := Halted), st);
      assert Sweep(job.env, st, {}) == st;
    } else {
      var p' := p.(pc := Sweeping(todo[1..]));
      var st' := Delete(st, todo[0], job.env.delete(todo[0])).0;
      assert Call(job, rules, p, st) == (p', st');
      AloneSweeps(job, rules, p', st');
      assert todo == [todo[0]] + todo[1..];
      assert Sweep(job.env, st', set k | k in todo[1..]) == Sweep(job.env, st, set k | k in todo);
    }
  }

  lemma CallsOfBinding(job: Job, rules: Rules, i: nat, s: Progress)
    requires i < |job.cfg.bindings|
    ensures var s' := BindingStep(job.cfg, job.env, rules, i, s);
            Alone(job, rules, Proc(Updating(i), s.active), s.store)
            == Alone(job, rules, Proc(Updating(i + 1), s'.active), s'.store)
  {
    var p := Proc(Updating(i), s.active);
    var (p', st') := Call(job, rules, p, s.store);
    AloneOnce(job, rules, p, s.store);
    if Decide(job.cfg, job.cfg.bindings[i], job.env.lookup(i), s.active).Write? {
      CallsOfWrite(job, rules, i, s);
      if p'.pc.Creating? {
        AloneOnce(job, rules, p', st');
      }
    }
  }

  /** A write takes one call, or two when the update finds nothing to update. */
  lemma CallsOfWrite(job: Job, rules: Rules, i: nat, s: Progress)
    requires i < |job.cfg.bindings| && Decide(job.cfg, job.cfg.bindings[i], job.env.lookup(i), s.active).Write?
    ensures var s' := BindingStep(job.cfg, job.env, rules, i, s);
            var (p', st') := Call(job, rules, Proc(Updating(i), s.active), s.store);
            && ValidProc(job, p')
            && (Proc(Updating(i + 1), s'.active), s'.store)
               == if p'.pc.Creating? then Call(job, rules, p', st') else (p', st')
  {
  }

  lemma AloneOnce(job: Job, rules: Rules, p: Proc, st: Store)
    requires ValidProc(job, p)
    ensures var (p', st') := Call(job, rules, p, st);
            ValidProc(job, p') && Alone(job, rules, p, st) == Alone(job, rules, p', st')
  {
    CallAdvances(job, rules, p, st);
  }

  lemma {:induction false} AloneLoops(job: Job, rules: Rules, st: Store, i: nat, s: Progress)
    requires i <= |job.cfg.bindings| && s == BindingLoop(job.cfg, job.env, rules, st, i)
    ensures Alone(job, rules, START, st) == Alone(job, rules, Proc(Updating(i), s.active), s.store)
  {
    if i > 0 {
      var before := BindingLoop(job.cfg, job.env, rules, st, i - 1);
      AloneLoops(job, rules, st, i - 1, before);
      CallsOfBinding(job, rules, i - 1, before);
    }
  }

  /** The refinement: the API calls of a reconcile, issued one by one, have exactly the effect of the handler. */
  lemma CallsAddUp(job: Job, rules: Rules, st: Store)
    requires ValidJob(job)
    ensures Alone(job, rules, START, st) == Reconciled(job.cfg, job.env, rules, job.cache, st)
  {
    var n := |job.cfg.bindings|;
    var s := AfterBindings(job.cfg, job.env, rules, st);
    AloneLoops(job, rules, st, n, s);
    var p := Proc(Updating(n), s.active);
    CallAdvances(job, rules, p, s.store);
    var (p', st') := Call(job, rules, p, s.store);
    var doomed := Doomed(job.cfg, job.env, job.cache, s.active);
    if CleanupRuns(job.cfg, job.env) {
      TodoIsShort(job, job.listing, s.active);
      AloneSweeps(job, rules, p', st');
      assert (set k | k in p'.pc.todo) == doomed;
    } else {
      assert doomed == {};
      assert Sweep(job.env, s.store, doomed) == s.store;
    }
  }

  // ---- Interleaving ----

  /** Everything a reconcile may read or write on the server: its desired names, and what its cache shows as owned. */
  function Footprint(job: Job): set<Key> {
    Wanted(job) + Claimed(job)
  }

  function Wanted(job: Job): set<Key> {
    set i | 0 <= i < |job.cfg.bindings| :: KeyOf(job.cfg, NameAt(job.cfg, i))
  }

  function Claimed(job: Job): set<Key> {
    set k | k in job.listing && OwnedInCache(job, k)
  }

  /** The key that the next call is about, if there is one. */
  function Focus(job: Job, p: Proc): (f: Option<Key>)
    requires ValidProc(job, p)
    ensures f.Some? ==> f.value in Footprint(job)
  {
    match p.pc
    case Updating(i) => if i == |job.cfg.bindings| then None else Some(KeyOf(job.cfg, NameAt(job.cfg, i)))
    case Creating(i) => Some(KeyOf(job.cfg, NameAt(job.cfg, i)))
    case Sweeping(todo) => if todo == [] then None else (assert todo[0] in todo; Some(todo[0]))
    case Halted => None
  }

  lemma CallIsLocal(job: Job, rules: Rules, p: Proc, st: Store, other: Store, k: Key)
    requires ValidProc(job, p)
    requires Focus(job, p).Some? ==> AgreeAt(st, other, Focus(job, p).value)
    ensures Call(job, rules, p, st).0 == Call(job, rules, p, other).0
    ensures Focus(job, p) == Some(k) ==> AgreeAt(Call(job, rules, p, st).1, Call(job, rules, p, other).1, k)
    ensures Focus(job, p) != Some(k) ==> AgreeAt(Call(job, rules, p, st).1, st, k)
  {
    var cfg, env := job.cfg, job.env;
    match p.pc
    case Updating(i) =>
      if i < |cfg.bindings| {
        match Decide(cfg, cfg.bindings[i], env.lookup(i), p.active)
        case Write(obj) => CallsAreLocal(rules, st, other, KeyOf(cfg, NameAt(cfg, i)), obj, env.update(i), k);
        case _ =>
      }
    case Creating(i) =>
      CallsAreLocal(rules, st, other, KeyOf(cfg, NameAt(cfg, i)), DesiredAt(cfg, env, i), env.create(i), k);
    case Sweeping(todo) =>
    case Halted =>
  }

  lemma CallsCommute(a: Job, b: Job, rules: Rules, p: Proc, q: Proc, st: Store)
    requires ValidProc(a, p) && ValidProc(b, q) && Footprint(a) !! Footprint(b)
    ensures var (p', sa) := Call(a, rules, p, st);
            var (q', sb) := Call(b, rules, q, st);
            Call(b, rules, q, sa) == (q', Call(a, rules, p, sb).1) && Call(a, rules, p, sb).0 == p'
  {
    var (p', sa) := Call(a, rules, p, st);
    var (q', sb) := Call(b, rules, q, st);
    var sab, sba := Call(b, rules, q, sa).1, Call(a, rules, p, sb).1;
    forall k
      ensures AgreeAt(sab, sba, k) && Call(b, rules, q, sa).0 == q' && Call(a, rules, p, sb).0 == p'
    {
      CallsCommuteAt(a, b, rules, p, q, st, k);
    }
    SameStore(sab, sba);
    CallsCommuteAt(a, b, rules, p, q, st, Key(Namespaced, "", ""));
  }

  lemma CallsCommuteAt(a: Job, b: Job, rules: Rules, p: Proc, q: Proc, st: Store, k: Key)
    requires ValidProc(a, p) && ValidProc(b, q) && Footprint(a) !! Footprint(b)
    ensures var (p', sa) := Call(a, rules, p, st);
            var (q', sb) := Call(b, rules, q, st);
            && Call(b, rules, q, sa).0 == q' && Call(a, rules, p, sb).0 == p'
            && AgreeAt(Call(b, rules, q, sa).1, Call(a, rules, p, sb).1, k)
  {
    var sa, sb := Call(a, rules, p, st).1, Call(b, rules, q, st).1;
    if Focus(a, p).Some? {
      CallIsLocal(b, rules, q, st, st, Focus(a, p).value);
    }
    if Focus(b, q).Some? {
      CallIsLocal(a, rules, p, st, st, Focus(b, q).value);
    }
    CallIsLocal(a, rules, p, st, st, k);
    CallIsLocal(b, rules, q, st, st, k);
    CallIsLocal(a, rules, p, sb, st, k);
    CallIsLocal(b, rules, q, sa, st, k);
  }

  /** One call of `b` may be moved across a whole run of `a`. */
  lemma {:induction false} CallPassesRun(a: Job, b: Job, rules: Rules, p: Proc, q: Proc, st: Store)
    requires ValidProc(a, p) && ValidProc(b, q) && Footprint(a) !! Footprint(b)
    ensures Call(b, rules, q, Alone(a, rules, p, st))
            == (Call(b, rules, q, st).0, Alone(a, rules, p, Call(b, rules, q, st).1))
    decreases Left(a, p)
  {
    if !p.pc.Halted? {
      var (p', st') := Call(a, rules, p, st);
      CallAdvances(a, rules, p, st);
      CallPassesRun(a, b, rules, p', q, st');
      CallsCommute(a, b, rules, p, q, st);
    }
  }

  /** The store after a schedule of calls: `true` lets `a` make its next call, `false` lets `b`. */
  function Together(a: Job, b: Job, rules: Rules, schedule: seq<bool>, p: Proc, q: Proc, st: Store): (Proc, Proc, Store)
    requires ValidProc(a, p) && ValidProc(b, q)
  {
    if schedule == [] then (p, q, st)
    else if schedule[0] then
      CallAdvances(a, rules, p, st);
      var (p', st') := Call(a, rules, p, st);
      Together(a, b, rules, schedule[1..], p', q, st')
    else
      CallAdvances(b, rules, q, st);
      var (q', st') := Call(b, rules, q, st);
      Together(a, b, rules, schedule[1..], p, q', st')
  }

  lemma {:induction false} TogetherIsSerial(a: Job, b: Job, rules: Rules, schedule: seq<bool>, p: Proc, q: Proc,
                                            st: Store)
    requires ValidProc(a, p) && ValidProc(b, q) && Footprint(a) !! Footprint(b)
    requires var (p', q', _) := Together(a, b, rules, schedule, p, q, st); p'.pc.Halted? && q'.pc.Halted?
    ensures Together(a, b, rules, schedule, p, q, st).2 == Alone(b, rules, q, Alone(a, rules, p, st))
    decreases |schedule|
  {
    if schedule != [] {
      if schedule[0] {
        var (p', st') := Call(a, rules, p, st);
        CallAdvances(a, rules, p, st);
        TogetherIsSerial(a, b, rules, schedule[1..], p', q, st');
      } else {
        var (q', st') := Call(b, rules, q, st);
        CallAdvances(b, rules, q, st);
        TogetherIsSerial(a, b, rules, schedule[1..], p, q', st');
        CallPassesRun(a, b, rules, p, q, st);
      }
    }
  }

  /** Swapping the roles of the two jobs. */
  lemma {:induction false} TogetherSwaps(a: Job, b: Job, rules: Rules, schedule: seq<bool>, p: Proc, q: Proc, st: Store)
    requires ValidProc(a, p) && ValidProc(b, q)
    ensures var (p', q', st') := Together(a, b, rules, schedule, p, q, st);
            Together(b, a, rules, seq(|schedule|, i requires 0 <= i < |schedule| => !schedule[i]), q, p, st)
            == (q', p', st')
    decreases |schedule|
  {
    var swapped := seq(|schedule|, i requires 0 <= i < |schedule| => !schedule[i]);
    if schedule != [] {
      assert swapped[1..] == seq(|schedule[1..]|, i requires 0 <= i < |schedule[1..]| => !schedule[1..][i]);
      if schedule[0] {
        var (p', st') := Call(a, rules, p, st);
        CallAdvances(a, rules, p, st);
        TogetherSwaps(a, b, rules, schedule[1..], p', q, st');
      } else {
        var (q', st') := Call(b, rules, q, st);
        CallAdvances(b, rules, q, st);
        TogetherSwaps(a, b, rules, schedule[1..], p, q', st');
      }
    }
  }

  /**
   Independence: two reconciles whose footprints do not meet end in one and the same server state, whether they run in
   either order or with their API calls interleaved in any way, and whatever calls fail.
   */
  lemma Independence(a: Job, b: Job, rules: Rules, schedule: seq<bool>, st: Store)
    requires ValidJob(a) && ValidJob(b) && Footprint(a) !! Footprint(b)
    requires var (p, q, _) := Together(a, b, rules, schedule, START, START, st); p.pc.Halted? && q.pc.Halted?
    ensures var after := Together(a, b, rules, schedule, START, START, st).2;
            && after == Reconciled(b.cfg, b.env, rules, b.cache, Reconciled(a.cfg, a.env, rules, a.cache, st))
            && after == Reconciled(a.cfg, a.env, rules, a.cache, Reconciled(b.cfg, b.env, rules, b.cache, st))
  {
    TogetherIsSerial(a, b, rules, schedule, START, START, st);
    CallsAddUp(a, rules, st);
    CallsAddUp(b, rules, Reconciled(a.cfg, a.env, rules, a.cache, st));
    TogetherSwaps(a, b, rules, schedule, START, START, st);
    TogetherIsSerial(b, a, rules, seq(|schedule|, i requires 0 <= i < |schedule| => !schedule[i]), START, START, st);
    CallsAddUp(b, rules, st);
    CallsAddUp(a, rules, Reconciled(b.cfg, b.env, rules, b.cache, st));
  }

  /** A namespaced and a cluster reconcile are always independent; so are configs of different namespaces. */
  lemma DifferentHomesAreApart(a: Job, b: Job)
    requires ValidJob(a) && ValidJob(b)
    requires a.cfg.scope != b.cfg.scope || (a.cfg.scope == Namespaced && a.cfg.ns != b.cfg.ns)
    ensures Footprint(a) !! Footprint(b)
  {
  }

  lemma {:induction false} OneController(owners: seq<OwnerRef>, uid: string, uid': string)
    requires ControlledBy(owners, uid) && ControlledBy(owners, uid')
    ensures uid == uid'
  {
    if !owners[0].controller {
      OneController(owners[1..], uid, uid');
    }
  }

  /**
   Two configs with different uids, over one lister cache, are independent as soon as neither wants a name that the
   other wants or owns: an object has one controller, so no object is claimed by both.
   */
  lemma DifferentOwnersAreApart(a: Job, b: Job)
    requires ValidJob(a) && ValidJob(b) && a.cache == b.cache && a.cfg.uid != b.cfg.uid
    requires Wanted(a) !! Wanted(b) && Wanted(a) !! Claimed(b) && Claimed(a) !! Wanted(b)
    ensures Footprint(a) !! Footprint(b)
  {
    forall k | k in Claimed(a)
      ensures k !in Claimed(b)
    {
      if k in Claimed(b) {
        OneController(a.cache[k].owners, a.cfg.uid, b.cfg.uid);
      }
    }
  }
}
