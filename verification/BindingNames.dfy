/**
 Binding names and duplicates. The handlers skip a binding whose name was already written, because "the result will be
 the same"; a name is config-group-role joined by '-', so this needs conditions, which are proved here.
 */
module BindingNames {
  import opened Subjects
  import opened Groupers
  import opened Api
  import opened Reconcile
  import opened PostState

  /** Joined by '-', `g` and `r` give what `g'` and `r'` give, because `g` takes over the front of `r'`. */
  ghost predicate Shifts(g: string, r: string, g': string, r': string) {
    exists x: string {:trigger "-" + x} :: g == g' + ("-" + x) && r' == x + ("-" + r)
  }

  lemma JoinSplits(g: string, r: string, g': string, r': string)
    requires g + "-" + r == g' + "-" + r' && |g| > |g'|
    ensures Shifts(g, r, g', r')
  {
    var s, x := g + "-" + r, g[|g'| + 1..];
    assert s[..|g'|] == g' && s[|g'|] == '-' && s[|g'| + 1..] == r';
    assert s[..|g|] == g && s[|g|..] == "-" + r;
    assert g == s[..|g'|] + [s[|g'|]] + x;
    assert s[|g'| + 1..] == x + s[|g|..];
    assert g == g' + ("-" + x) && r' == x + ("-" + r);
  }

  lemma ShiftsJoin(g: string, r: string, g': string, r': string)
    requires Shifts(g, r, g', r')
    ensures g + "-" + r == g' + "-" + r'
    ensures '-' in r'
  {
    var x: string :| g == g' + ("-" + x) && r' == x + ("-" + r);
    assert g' + ("-" + x) + "-" + r == g' + "-" + (x + ("-" + r));
    assert r'[|x|] == '-';
  }

  /** Exactly when two pairs are joined to the same string. */
  lemma JoinIff(g: string, r: string, g': string, r': string)
    ensures g + "-" + r == g' + "-" + r' <==>
            (g == g' && r == r') || Shifts(g, r, g', r') || Shifts(g', r', g, r)
  {
    var s, s' := g + "-" + r, g' + "-" + r';
    if s == s' {
      if |g| == |g'| {
        assert s[..|g|] == g && s'[..|g'|] == g' && s[|g| + 1..] == r && s'[|g'| + 1..] == r';
      } else if |g| > |g'| {
        JoinSplits(g, r, g', r');
      } else {
        JoinSplits(g', r', g, r);
      }
    } else {
      if Shifts(g, r, g', r') {
        ShiftsJoin(g, r, g', r');
      }
      if Shifts(g', r', g, r) {
        ShiftsJoin(g', r', g, r);
      }
    }
  }

  function Tail(b: Binding): string {
    b.group + "-" + b.roleRef.name
  }

  lemma NameJoins(cfg: Config, b: Binding)
    ensures NameOf(cfg, b) == cfg.name + "-" + Tail(b)
  {
  }

  /** `b` keeps in its group what `b'` keeps in its role name: (a-b, c) against (a, b-c). */
  ghost predicate Shifted(b: Binding, b': Binding) {
    Shifts(b.group, b.roleRef.name, b'.group, b'.roleRef.name)
  }

  /** Exactly when two bindings of a config share a name. */
  lemma NamesCollideIff(cfg: Config, b: Binding, b': Binding)
    ensures NameOf(cfg, b) == NameOf(cfg, b') <==>
            || (b.group == b'.group && b.roleRef.name == b'.roleRef.name)
            || Shifted(b, b') || Shifted(b', b)
  {
    var n := |cfg.name| + 1;
    NameJoins(cfg, b);
    NameJoins(cfg, b');
    assert NameOf(cfg, b)[n..] == Tail(b) && NameOf(cfg, b')[n..] == Tail(b');
    JoinIff(b.group, b.roleRef.name, b'.group, b'.roleRef.name);
  }

  /** Exactly when bindings of two configs share a name. */
  lemma NamesMeetIff(cfg: Config, b: Binding, cfg': Config, b': Binding)
    ensures NameOf(cfg, b) == NameOf(cfg', b') <==>
            || (cfg.name == cfg'.name && Tail(b) == Tail(b'))
            || Shifts(cfg.name, Tail(b), cfg'.name, Tail(b')) || Shifts(cfg'.name, Tail(b'), cfg.name, Tail(b))
  {
    NameJoins(cfg, b);
    NameJoins(cfg', b');
    JoinIff(cfg.name, Tail(b), cfg'.name, Tail(b'));
  }

  /** A name is another one followed by a dash part. */
  ghost predicate Extends(name: string, other: string) {
    exists x: string {:trigger "-" + x} :: name == other + ("-" + x)
  }

  /** The names of two configs tell exactly whether any bindings of theirs can share a name. */
  lemma ConfigsMeetIff(cfg: Config, cfg': Config)
    ensures (exists b, b' :: NameOf(cfg, b) == NameOf(cfg', b')) <==>
            cfg.name == cfg'.name || Extends(cfg.name, cfg'.name) || Extends(cfg'.name, cfg.name)
  {
    if b, b' :| NameOf(cfg, b) == NameOf(cfg', b') {
      NamesMeetIff(cfg, b, cfg', b');
    }
    if cfg.name == cfg'.name {
      var b := Binding("", RoleRef("", "", ""));
      NamesMeetIff(cfg, b, cfg', b);
    } else if Extends(cfg.name, cfg'.name) {
      ExtendedMeet(cfg, cfg');
    } else if Extends(cfg'.name, cfg.name) {
      ExtendedMeet(cfg', cfg);
    }
  }

  /** With "team-dev" and "team": group "ops" of the one and "dev-ops" of the other, for the same role. */
  lemma ExtendedMeet(cfg: Config, cfg': Config)
    requires Extends(cfg.name, cfg'.name)
    ensures exists b, b' :: NameOf(cfg, b) == NameOf(cfg', b')
  {
    var x: string :| cfg.name == cfg'.name + ("-" + x);
    var role := RoleRef("rbac.authorization.k8s.io", "ClusterRole", "admin");
    var b, b' := Binding("ops", role), Binding(x + ("-" + "ops"), role);
    assert Tail(b') == x + ("-" + Tail(b));
    NamesMeetIff(cfg, b, cfg', b');
  }

  /** Role names without '-' rule the shifted collisions out. */
  lemma NamesInjective(cfg: Config, b: Binding, b': Binding)
    requires '-' !in b.roleRef.name && '-' !in b'.roleRef.name
    requires NameOf(cfg, b) == NameOf(cfg, b')
    ensures b.group == b'.group && b.roleRef.name == b'.roleRef.name
  {
    NamesCollideIff(cfg, b, b');
    if Shifted(b, b') {
      ShiftsJoin(b.group, b.roleRef.name, b'.group, b'.roleRef.name);
    }
    if Shifted(b', b) {
      ShiftsJoin(b'.group, b'.roleRef.name, b.group, b.roleRef.name);
    }
  }

  /** A collision that the handlers take for a duplicate although it grants another role to another group. */
  lemma CollisionExample(cfg: Config, kind: string)
    ensures var b := Binding("dev-ops", RoleRef("rbac", kind, "admin"));
            var b' := Binding("dev", RoleRef("rbac", kind, "ops-admin"));
            b.group != b'.group && b.roleRef != b'.roleRef && NameOf(cfg, b) == NameOf(cfg, b')
  {
    var b, b' := Binding("dev-ops", RoleRef("rbac", kind, "admin")), Binding("dev", RoleRef("rbac", kind, "ops-admin"));
    assert b.group == b'.group + ("-" + "ops") && b'.roleRef.name == "ops" + ("-" + b.roleRef.name);
    NamesCollideIff(cfg, b, b');
  }

  /** Equal but for the order of subjects that share a Name. */
  ghost predicate Alike(o: Object, o': Object) {
    && o.(subjects := []) == o'.(subjects := [])
    && Elems(o.subjects) == Elems(o'.subjects)
    && Names(o.subjects) == Names(o'.subjects)
  }

  /** Two answers that differ at most in the walks taken while normalising. */
  ghost predicate SameMembers(a: Answer, a': Answer) {
    && a.Found? && a'.Found?
    && Canonical(a.members, Elems(a.members)) && Canonical(a'.members, Elems(a.members))
  }

  /** Two bindings of one group and one roleRef, looked up with the same members, ask for the same object. */
  lemma DuplicatesAreAlike(cfg: Config, env: Env, i: nat, j: nat)
    requires i < |cfg.bindings| && j < |cfg.bindings|
    requires GoodAt(cfg, env, i) && GoodAt(cfg, env, j) && SameMembers(env.lookup(i), env.lookup(j))
    requires cfg.bindings[i] == cfg.bindings[j]
    ensures Alike(DesiredAt(cfg, env, i), DesiredAt(cfg, env, j))
  {
    CanonicalNames(env.lookup(i).members, env.lookup(j).members, Elems(env.lookup(i).members));
  }
}
