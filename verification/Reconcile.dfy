/**
 One reconcile: handleConfig and handleClusterConfig of pkg/controller/controller.go, which are twins and are modelled
 once, parameterised by the scope of the config.

 Everything a run cannot control is in its `Env`: the answer to each group lookup, the verdict on each API call, and
 whether the cleanup listing worked. The lister cache is a separate store that need not equal the server's.
 */
module Reconcile {
  import opened Errors
  import opened Subjects
  import opened Groupers
  import opened Resolve
  import opened Api

  datatype Binding = Binding(group: string, roleRef: RoleRef)

  datatype Config = Config(scope: Scope, ns: string, name: string, uid: string,
                           memberships: seq<Membership>, bindings: seq<Binding>)

  /** The i-th binding is looked up with answer `lookup(i)` and written with verdicts `update(i)` and `create(i)`. */
  datatype Env = Env(lookup: nat -> Answer, update: nat -> Verdict, create: nat -> Verdict, delete: Key -> Verdict,
                     listOk: bool)

  datatype Reason = Configured | Deleted | Duplicated | Warning | BindingError | UnknownGroup

  datatype Event = Event(reason: Reason, about: string)

  /** What a run has done so far: the server's store, the `active` map, and the events sent. */
  datatype Progress = Progress(store: Store, active: set<string>, events: seq<Event>)

  /** What the handler decides about one binding before any API call. */
  datatype Plan = BadKind | NotThere | Held | Ignored | Nobody | Duplicate | Write(obj: Object)

  function Home(cfg: Config): string {
    if cfg.scope == Namespaced then cfg.ns else ""
  }

  function KeyOf(cfg: Config, name: string): Key {
    Key(cfg.scope, Home(cfg), name)
  }

  predicate AtHome(cfg: Config, k: Key) {
    k.scope == cfg.scope && k.ns == Home(cfg)
  }

  function NameOf(cfg: Config, b: Binding): string {
    cfg.name + "-" + b.group + "-" + b.roleRef.name
  }

  predicate KindAllowed(cfg: Config, kind: string) {
    kind == "ClusterRole" || (cfg.scope == Namespaced && kind == "Role")
  }

  function ControllerRef(cfg: Config): OwnerRef {
    OwnerRef("rbacsync.getcruise.com/v1alpha",
             if cfg.scope == Namespaced then "RBACSyncConfig" else "ClusterRBACSyncConfig",
             cfg.name, cfg.uid, true)
  }

  function Desired(cfg: Config, b: Binding, members: seq<Subject>): Object {
    Object([ControllerRef(cfg)], map["owner" := cfg.name], map["rbacsync.getcruise.com/group" := b.group],
           members, b.roleRef)
  }

  /** What is written, with its values. */
  lemma DesiredMeans(cfg: Config, b: Binding, members: seq<Subject>)
    ensures Desired(cfg, b, members) ==
            Object([OwnerRef("rbacsync.getcruise.com/v1alpha",
                             if cfg.scope == ClusterWide then "ClusterRBACSyncConfig" else "RBACSyncConfig",
                             cfg.name, cfg.uid, true)],
                   map["owner" := cfg.name],
                   map["rbacsync.getcruise.com/group" := b.group], members, b.roleRef)
  {
  }

  function Decide(cfg: Config, b: Binding, ans: Answer, active: set<string>): Plan {
    if !KindAllowed(cfg, b.roleRef.kind) then BadKind
    else match ans
      case Failed(err) => if IsNotFound(err) then NotThere else if IsUnknownMemberships(err) then Held else Ignored
      case Found(members) =>
        if members == [] then Nobody
        else if NameOf(cfg, b) in active then Duplicate
        else Write(Desired(cfg, b, members))
  }

  /**
   What the handlers decide, reason by reason: which kinds of role a scope may refer to, which errors name an unknown
   group and which an unknown membership.
   */
  lemma DecideMeans(cfg: Config, b: Binding, ans: Answer, active: set<string>, msgs: seq<string>, base: Error)
    requires !base.Wrap? && (ans.Failed? ==> ans.err == Wrapped(msgs, base))
    ensures var plan := Decide(cfg, b, ans, active);
            var name := cfg.name + "-" + b.group + "-" + b.roleRef.name;
            var kinds := if cfg.scope == ClusterWide then {"ClusterRole"} else {"Role", "ClusterRole"};
            && (plan.BadKind? <==> b.roleRef.kind !in kinds)
            && (plan.NotThere? <==> b.roleRef.kind in kinds && ans.Failed? && base == NotFound)
            && (plan.Held? <==> b.roleRef.kind in kinds && ans.Failed? && base in {Unknown, Timeout, Canceled})
            && (plan.Nobody? <==> b.roleRef.kind in kinds && ans.Found? && ans.members == [])
            && (plan.Duplicate? <==> b.roleRef.kind in kinds && ans.Found? && ans.members != [] && name in active)
            && (plan.Write? <==> b.roleRef.kind in kinds && ans.Found? && ans.members != [] && name !in active)
  {
    WrappedMeans(msgs, base);
  }

  /** createOrUpdate: an update, and a create if the update reports that there is nothing to update. */
  function Upsert(rules: Rules, st: Store, k: Key, o: Object, update: Verdict, create: Verdict): (Store, Reply) {
    var (st', reply) := Update(rules, st, k, o, update);
    if reply == Missing then Create(rules, st', k, o, create) else (st', reply)
  }

  /** An object that is there is updated, never created; one that is not is created, if the update does not do it. */
  lemma UpsertMeans(rules: Rules, st: Store, k: Key, o: Object, update: Verdict, create: Verdict)
    requires Accepts(rules, o)
    ensures k in st ==> Upsert(rules, st, k, o, update, create) == Update(rules, st, k, o, update)
    ensures k !in st && (rules.upsert || update != Serve) ==>
              Upsert(rules, st, k, o, update, create) == Update(rules, st, k, o, update)
    ensures k !in st && !rules.upsert && update == Serve ==>
              Upsert(rules, st, k, o, update, create) ==
              (if create == Fail then st else st[k := o], if create == Serve then Done else Refused)
  {
  }

  function BindingStep(cfg: Config, env: Env, rules: Rules, i: nat, s: Progress): Progress
    requires i < |cfg.bindings|
  {
    var b := cfg.bindings[i];
    var name := NameOf(cfg, b);
    match Decide(cfg, b, env.lookup(i), s.active)
    case BadKind => s.(events := s.events + [Event(BindingError, b.group)])
    case NotThere => s.(events := s.events + [Event(UnknownGroup, b.group)])
    case Held => s.(active := s.active + {name}, events := s.events + [Event(BindingError, b.group)])
    case Ignored => s
    case Nobody => s.(events := s.events + [Event(Warning, b.group)])
    case Duplicate => s.(events := s.events + [Event(Duplicated, name)])
    case Write(obj) =>
      var (st', reply) := Upsert(rules, s.store, KeyOf(cfg, name), obj, env.update(i), env.create(i));
      if reply == Done then Progress(st', s.active + {name}, s.events + [Event(Configured, name)])
      else Progress(st', s.active, s.events + [Event(BindingError, name)])
  }

  /** The binding loop after its first `n` rounds. */
  function BindingLoop(cfg: Config, env: Env, rules: Rules, st: Store, n: nat): Progress
    requires n <= |cfg.bindings|
  {
    if n == 0 then Progress(st, {}, [])
    else BindingStep(cfg, env, rules, n - 1, BindingLoop(cfg, env, rules, st, n - 1))
  }

  function AfterBindings(cfg: Config, env: Env, rules: Rules, st: Store): Progress {
    BindingLoop(cfg, env, rules, st, |cfg.bindings|)
  }

  /** An object the cleanup may delete: selected by the owner label and controlled by this very config. */
  predicate Owned(cfg: Config, o: Object) {
    Selected(o, cfg.name) && ControlledBy(o.owners, cfg.uid)
  }

  predicate CleanupRuns(cfg: Config, env: Env) {
    LegalLabelValue(cfg.name) && env.listOk
  }

  /** The keys for which the cleanup issues a Delete. */
  function Doomed(cfg: Config, env: Env, cache: Store, active: set<string>): set<Key> {
    set k | k in cache && CleanupRuns(cfg, env) && AtHome(cfg, k) && Owned(cfg, cache[k]) && k.name !in active
  }

  function Sweep(env: Env, st: Store, doomed: set<Key>): Store {
    map k | k in st && !(k in doomed && env.delete(k) != Fail) :: st[k]
  }

  function Reconciled(cfg: Config, env: Env, rules: Rules, cache: Store, st: Store): Store {
    var s := AfterBindings(cfg, env, rules, st);
    Sweep(env, s.store, Doomed(cfg, env, cache, s.active))
  }

  /** The cleanup's event for one doomed key: a reply of Done and a reply of Missing both count as deleted. */
  function DeleteEvent(env: Env, k: Key): Event {
    if env.delete(k) == Serve then Event(Deleted, k.name) else Event(BindingError, k.name)
  }

  function CleanupEvents(cfg: Config, env: Env, listing: seq<Key>, doomed: set<Key>): seq<Event> {
    if listing == [] then []
    else
      var front, k := listing[..|listing| - 1], listing[|listing| - 1];
      CleanupEvents(cfg, env, front, doomed) + if k in doomed then [DeleteEvent(env, k)] else []
  }

  /** An order in which the lister may return the selected objects of the config's namespace. */
  ghost predicate Listing(cfg: Config, cache: Store, listing: seq<Key>) {
    && (forall i, j :: 0 <= i < j < |listing| ==> listing[i] != listing[j])
    && (forall k :: k in listing <==> k in cache && AtHome(cfg, k) && Selected(cache[k], cfg.name))
  }

  // ---- The code ----

  class Controller {
    const server: Server
    var cache: Store
    var events: seq<Event>

    constructor (server: Server)
      ensures this.server == server && cache == map[] && events == []
    {
      this.server := server;
      cache, events := map[], [];
    }

    method CreateOrUpdate(k: Key, o: Object, update: Verdict, create: Verdict) returns (reply: Reply)
      modifies server
      ensures (server.store, reply) == Upsert(server.rules, old(server.store), k, o, update, create)
    {
      reply := server.UpdateCall(k, o, update);
      if reply == Missing {
        reply := server.CreateCall(k, o, create);
      }
    }

    /** The lister: the cached objects of the namespace that carry the owner label, in any order. */
    method List(cfg: Config) returns (listing: seq<Key>)
      ensures Listing(cfg, cache, listing)
    {
      listing := [];
      var rest := set k | k in cache && AtHome(cfg, k) && Selected(cache[k], cfg.name);
      ghost var all := rest;
      while rest != {}
        invariant rest <= all
        invariant forall i, j :: 0 <= i < j < |listing| ==> listing[i] != listing[j]
        invariant forall k :: k in listing <==> k in all - rest
      {
        var k :| k in rest;
        assert k !in listing;
        listing, rest := listing + [k], rest - {k};
      }
    }

    /**
     The handler. Its effect on the server is `Reconciled`, whatever order the lister returned; it reports an error
     exactly when the cleanup could not run, and then it has deleted nothing.
     */
    method HandleConfig(cfg: Config, env: Env) returns (ok: bool, ghost listing: seq<Key>)
      modifies this`events, server
      ensures server.store == Reconciled(cfg, env, server.rules, cache, old(server.store))
      ensures ok <==> LegalLabelValue(cfg.name) && env.listOk
      ensures ok ==> Listing(cfg, cache, listing)
      ensures var s := AfterBindings(cfg, env, server.rules, old(server.store));
              events == old(events) + s.events
                        + CleanupEvents(cfg, env, listing, Doomed(cfg, env, cache, s.active))
    {
      listing := [];
      var active := HandleBindings(cfg, env);
      if !LegalLabelValue(cfg.name) || !env.listOk {
        assert Doomed(cfg, env, cache, active) == {};
        return false, [];
      }
      var keys := List(cfg);
      Cleanup(cfg, env, active, keys);
      return true, keys;
    }

    method HandleBindings(cfg: Config, env: Env) returns (active: set<string>)
      modifies this`events, server
      ensures var s := AfterBindings(cfg, env, server.rules, old(server.store));
              server.store == s.store && active == s.active && events == old(events) + s.events
    {
      active := {};
      for i := 0 to |cfg.bindings|
        invariant var s := BindingLoop(cfg, env, server.rules, old(server.store), i);
                  server.store == s.store && active == s.active && events == old(events) + s.events
      {
        var binding := cfg.bindings[i];
        if !KindAllowed(cfg, binding.roleRef.kind) {
          events := events + [Event(BindingError, binding.group)];
          continue;
        }
        var name := cfg.name + "-" + binding.group + "-" + binding.roleRef.name;
        match env.lookup(i) {
          case Failed(err) =>
            if IsNotFound(err) {
              events := events + [Event(UnknownGroup, binding.group)];
            } else if IsUnknownMemberships(err) {
              events := events + [Event(BindingError, binding.group)];
              active := active + {name};
            }
          case Found(members) =>
            if |members| == 0 {
              events := events + [Event(Warning, binding.group)];
              continue;
            }
            if name in active {
              events := events + [Event(Duplicated, name)];
              continue;
            }
            var obj := Object([ControllerRef(cfg)], map["owner" := cfg.name],
                              map["rbacsync.getcruise.com/group" := binding.group], members, binding.roleRef);
            var reply := CreateOrUpdate(KeyOf(cfg, name), obj, env.update(i), env.create(i));
            if reply != Done {
              events := events + [Event(BindingError, name)];
              continue;
            }
            active := active + {name};
            events := events + [Event(Configured, name)];
        }
      }
    }

    method Cleanup(cfg: Config, env: Env, active: set<string>, listing: seq<Key>)
      requires CleanupRuns(cfg, env) && Listing(cfg, cache, listing)
      modifies this`events, server
      ensures var doomed := Doomed(cfg, env, cache, active);
              && server.store == Sweep(env, old(server.store), doomed)
              && events == old(events) + CleanupEvents(cfg, env, listing, doomed)
    {
      ghost var doomed, swept := Doomed(cfg, env, cache, active), {};
      for i := 0 to |listing|
        invariant forall k :: k in swept <==> k in doomed && k in listing[..i]
        invariant server.store == Sweep(env, old(server.store), swept)
        invariant events == old(events) + CleanupEvents(cfg, env, listing[..i], doomed)
      {
        var k := listing[i];
        assert k in listing && k !in listing[..i];
        CleanupEventsSnoc(cfg, env, listing, i, doomed);
        if !ControlledBy(cache[k].owners, cfg.uid) {
          continue;
        }
        if k.name in active {
          continue;
        }
        SweepStep(env, old(server.store), swept, k);
        swept := swept + {k};
        var reply := server.DeleteCall(k, env.delete(k));
        if reply == Refused {
          events := events + [Event(BindingError, k.name)];
          continue;
        }
        events := events + [Event(Deleted, k.name)];
      }
      assert listing[..|listing|] == listing;
      assert swept == doomed;
    }
  }

  lemma SweepStep(env: Env, st: Store, swept: set<Key>, k: Key)
    requires k !in swept
    ensures var (after, reply) := Delete(Sweep(env, st, swept), k, env.delete(k));
            && after == Sweep(env, st, swept + {k})
            && (reply == Refused <==> env.delete(k) != Serve)
  {
  }

  lemma CleanupEventsSnoc(cfg: Config, env: Env, listing: seq<Key>, i: nat, doomed: set<Key>)
    requires i < |listing|
    ensures listing[..i + 1] == listing[..i] + [listing[i]]
    ensures CleanupEvents(cfg, env, listing[..i + 1], doomed) ==
            CleanupEvents(cfg, env, listing[..i], doomed)
            + if listing[i] in doomed then [DeleteEvent(env, listing[i])] else []
  {
    assert listing[..i + 1][..i] == listing[..i];
  }
}
