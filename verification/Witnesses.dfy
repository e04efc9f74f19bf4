/** Inputs on which the controller does less than its comments say, one for each case named in the README. */
module Witnesses {
  import opened Errors
  import opened Options
  import opened Subjects
  import opened Groupers
  import opened MergeAlgebra
  import opened Resolve
  import opened Api
  import opened Reconcile
  import opened PostState
  import opened BindingNames
  import opened Stabilise
  import opened Runs

  const ALICE := UserSubject("alice")
  const BOB := UserSubject("bob")

  function Role(name: string): RoleRef {
    RoleRef("rbac.authorization.k8s.io", "Role", name)
  }

  const DEV_OPS := Binding("dev-ops", Role("admin"))
  const DEV := Binding("dev", Role("ops-admin"))

  /** Two bindings that get the same name, team-dev-ops-admin. */
  const TEAM := Config(Namespaced, "apps", "team", "uid-team",
                       [Membership("dev-ops", [ALICE]), Membership("dev", [BOB])], [DEV_OPS, DEV])

  function Answers(first: Answer, second: Answer, update: Verdict): Env {
    Env((i: nat) => if i == 0 then first else second, (i: nat) => update, (i: nat) => Serve, (k: Key) => Serve, true)
  }

  lemma TeamFacts()
    ensures NameOf(TEAM, DEV_OPS) == NameOf(TEAM, DEV)
    ensures StaticMembers(TEAM.memberships, "dev-ops") == {ALICE} && StaticMembers(TEAM.memberships, "dev") == {BOB}
    ensures LegalLabelValue("team")
  {
    CollisionExample(TEAM, "Role");
    NamesCollideIff(TEAM, DEV_OPS, DEV);
    assert DEV_OPS.group == DEV.group + ("-" + "ops") && DEV.roleRef.name == "ops" + ("-" + DEV_OPS.roleRef.name);
    assert TEAM.memberships[0].subjects[0] == ALICE && TEAM.memberships[1].subjects[0] == BOB;
  }

  lemma OneIsCanonical(x: Subject)
    ensures Canonical([x], {x}) && Elems([x]) == {x}
  {
  }

  /** A skipped "duplicate" loses a grant: after a faultless run nothing stored gives the second group its role. */
  lemma SkipLosesAGrant(rules: Rules)
    ensures var r := Round(TEAM, Answers(Found([ALICE]), Found([BOB]), Serve), map[], (i: nat) => None);
            var after := Apply(rules, Pass(r), map[]);
            && Genuine(r) && FaultFree(TEAM, r.env)
            && GoodAt(TEAM, r.env, 1) && NameAt(TEAM, 0) == NameAt(TEAM, 1)
            && (forall k :: k in after ==> after[k] == DesiredAt(TEAM, r.env, 0))
            && DesiredAt(TEAM, r.env, 0).roleRef != DesiredAt(TEAM, r.env, 1).roleRef
  {
    var env := Answers(Found([ALICE]), Found([BOB]), Serve);
    var r := Round(TEAM, env, map[], (i: nat) => None);
    TeamFacts();
    OneIsCanonical(ALICE);
    OneIsCanonical(BOB);
    forall k
      ensures k in Apply(rules, Pass(r), map[]) ==> Apply(rules, Pass(r), map[])[k] == DesiredAt(TEAM, env, 0)
    {
      RunFactorsByName(TEAM, env, rules, map[], map[], k);
      var c0 := CellRun(TEAM, env, rules, k.name, None, 0);
      var c1 := CellRun(TEAM, env, rules, k.name, None, 1);
      assert c1 == CellStep(TEAM, env, rules, k.name, 0, c0);
      assert CellRun(TEAM, env, rules, k.name, None, 2) == CellStep(TEAM, env, rules, k.name, 1, c1);
    }
  }

  /** The upstream knows nothing of one group and cannot answer for the other. */
  const HALF_OUT := Stub((group: string) => if group == "dev-ops" then Failed(Unknown) else Failed(NotFound))

  /** A held binding shadows a good one of the same name: the wanted object is missing after a faultless run. */
  lemma ShadowedGrantIsMissing(rules: Rules)
    ensures var err := Wrap(FETCH_FAILED, Unknown);
            var r := Round(TEAM, Answers(Failed(err), Found([BOB]), Serve), map[], (i: nat) => Some(HALF_OUT));
            && Genuine(r) && FaultFree(TEAM, r.env) && Shadows(TEAM, r.env, 0, 1)
            && NameAt(TEAM, 1) in Target(TEAM, r.env)
            && KeyOf(TEAM, NameAt(TEAM, 1)) !in Apply(rules, Pass(r), map[])
  {
    var err := Wrap(FETCH_FAILED, Unknown);
    var env := Answers(Failed(err), Found([BOB]), Serve);
    var r := Round(TEAM, env, map[], (i: nat) => Some(HALF_OUT));
    TeamFacts();
    OneIsCanonical(BOB);
    WrapKeepsCause(FETCH_FAILED, Unknown);
    assert Lookup(HALF_OUT, "dev-ops") == Fails(Unknown) && Lookup(HALF_OUT, "dev") == Fails(NotFound);
    assert {BOB} + {} == {BOB};
    assert Shadows(TEAM, env, 0, 1);
    assert ShadowedName(TEAM, env, NameAt(TEAM, 1));
    ShadowedStays(TEAM, env, rules, map[], map[], KeyOf(TEAM, NameAt(TEAM, 1)));
  }

  /** Bindings of two configs that get the same name, team-dev-ops-admin. */
  lemma TeamsMeet()
    ensures var other := TEAM.(name := "team-dev", uid := "uid-team-dev");
            NameOf(TEAM, DEV_OPS) == NameOf(other, Binding("ops", Role("admin")))
  {
    var b := Binding("ops", Role("admin"));
    assert "team-dev" == "team" + ("-" + "dev") && Tail(DEV_OPS) == "dev" + ("-" + Tail(b));
    NamesMeetIff(TEAM.(name := "team-dev"), b, TEAM, DEV_OPS);
  }

  /** A server with fixed roleRefs: after the kind of a role is edited, the first run takes the grant away. */
  lemma EditedKindTakesTwoRuns(rules: Rules)
    requires rules.fixedRoleRef
    ensures var edited := TEAM.(bindings := [DEV.(roleRef := DEV.roleRef.(kind := "ClusterRole"))]);
            var env := Answers(Found([BOB]), Found([BOB]), Serve);
            var k := KeyOf(TEAM, NameOf(TEAM, DEV));
            var st := map[k := Desired(TEAM, DEV, [BOB])];
            var once := Reconciled(edited, env, rules, st, st);
            k !in once && k in Reconciled(edited, env, rules, once, once)
  {
    var edited := TEAM.(bindings := [DEV.(roleRef := DEV.roleRef.(kind := "ClusterRole"))]);
    var env := Answers(Found([BOB]), Found([BOB]), Serve);
    var k := KeyOf(TEAM, NameOf(TEAM, DEV));
    var st := map[k := Desired(TEAM, DEV, [BOB])];
    var once := Reconciled(edited, env, rules, st, st);
    TeamFacts();
    WrittenIsOwned(TEAM, edited, DEV, [BOB]);
    OneStep(edited, env, rules, k.name, At(st, k));
    RunFactorsByName(edited, env, rules, st, st, k);
    OneStep(edited, env, rules, k.name, None);
    RunFactorsByName(edited, env, rules, once, once, k);
  }

  lemma OneStep(cfg: Config, env: Env, rules: Rules, name: string, was: Option<Object>)
    requires |cfg.bindings| == 1
    ensures CellRun(cfg, env, rules, name, was, 1) == CellStep(cfg, env, rules, name, 0, Cell(was, false))
  {
    assert CellRun(cfg, env, rules, name, was, 0) == Cell(was, false);
  }

  /** A write that merely fails lets the cleanup of the same run delete the object that was to be updated. */
  lemma FailedWriteRevokes(rules: Rules)
    ensures var cfg := TEAM.(bindings := [DEV]);
            var k := KeyOf(cfg, NameOf(cfg, DEV));
            var stale := Desired(cfg, DEV, [ALICE]);
            k !in Reconciled(cfg, Answers(Found([BOB]), Found([BOB]), Fail), rules, map[k := stale], map[k := stale])
  {
    var cfg := TEAM.(bindings := [DEV]);
    var env := Answers(Found([BOB]), Found([BOB]), Fail);
    var k := KeyOf(cfg, NameOf(cfg, DEV));
    var before := map[k := Desired(cfg, DEV, [ALICE])];
    TeamFacts();
    WrittenIsOwned(cfg, cfg, DEV, [ALICE]);
    RunFactorsByName(cfg, env, rules, before, before, k);
    var c := CellRun(cfg, env, rules, k.name, At(before, k), 0);
    assert CellRun(cfg, env, rules, k.name, At(before, k), 1) == CellStep(cfg, env, rules, k.name, 0, c);
  }

  /** An object that lost its owner label survives every run, although the config controls it and wants nothing. */
  lemma LostLabelLeaks(rules: Rules)
    ensures var cfg := TEAM.(bindings := []);
            var k := KeyOf(cfg, "team-dev-ops-admin");
            var o := Desired(cfg, DEV, [ALICE]).(labels := map[]);
            && Controlled(cfg, o)
            && FaultFree(cfg, Answers(Failed(NotFound), Failed(NotFound), Serve))
            && Reconciled(cfg, Answers(Failed(NotFound), Failed(NotFound), Serve), rules, map[k := o], map[k := o])
               == map[k := o]
  {
    var cfg := TEAM.(bindings := []);
    TeamFacts();
    assert Desired(cfg, DEV, [ALICE]).owners[0] == ControllerRef(cfg);
  }

  const LONG := TEAM.(name := seq(64, i => 'a'), bindings := [DEV])

  /** With a name of 64 characters nothing is granted on a server that checks labels, however faultless the calls. */
  lemma LongNameGrantsNothing(rules: Rules)
    requires rules.checksLabels
    ensures var env := Answers(Found([BOB]), Found([BOB]), Serve);
            NameAt(LONG, 0) in Target(LONG, env) && Reconciled(LONG, env, rules, map[], map[]) == map[]
  {
    var env := Answers(Found([BOB]), Found([BOB]), Serve);
    LongNamesChangeNothing(LONG, env, rules, map[], map[]);
    OracleMeans(LONG, env, 1, NameAt(LONG, 0));
    assert GoodAt(LONG, env, 0);
  }

  /** On one that does not, a binding is granted, and stays when the config asks for nothing any more. */
  lemma LongNameLeaks(rules: Rules)
    requires !rules.checksLabels
    ensures var env := Answers(Found([BOB]), Found([BOB]), Serve);
            var k := KeyOf(LONG, NameAt(LONG, 0));
            var granted := Reconciled(LONG, env, rules, map[], map[]);
            && k in granted && Owned(LONG, granted[k])
            && k in Reconciled(LONG.(bindings := []), env, rules, granted, granted)
  {
    var env := Answers(Found([BOB]), Found([BOB]), Serve);
    var k := KeyOf(LONG, NameAt(LONG, 0));
    var granted := Reconciled(LONG, env, rules, map[], map[]);
    assert CellRun(LONG, env, rules, k.name, None, 0) == Cell(None, false);
    assert Wrote(LONG, env, rules, map[], 0);
    WrittenOnceAndKept(LONG, env, rules, map[], map[], 0);
    WrittenIsOwned(LONG, LONG, DEV, [BOB]);
    LongNamesAreNotCleanedUp(LONG.(bindings := []), env, rules, granted, granted, k);
  }
}
