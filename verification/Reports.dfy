/**
 What fault-free reconciles report: the events follow from the spec, the lookups and the stored roleRefs, so a poll
 repeats them unless the first run had to delete what was in the way.
 */
module Reports {
  import opened Errors
  import opened Api
  import opened Reconcile
  import opened PostState
  import opened BindingNames
  import opened Stabilise

  /** The i-th binding has members, and the server does not refuse to write it over what is stored. */
  predicate Writable(cfg: Config, env: Env, rules: Rules, st: Store, i: nat)
    requires i < |cfg.bindings|
  {
    GoodAt(cfg, env, i) && !Conflict(rules, At(st, KeyOf(cfg, NameAt(cfg, i))), DesiredAt(cfg, env, i))
  }

  predicate Claims(cfg: Config, env: Env, rules: Rules, st: Store, name: string, i: nat)
    requires i < |cfg.bindings|
  {
    NameAt(cfg, i) == name && (Writable(cfg, env, rules, st, i) || HeldAt(cfg, env, i))
  }

  /** One of the first `n` bindings makes the name active. */
  predicate ClaimedBelow(cfg: Config, env: Env, rules: Rules, st: Store, name: string, n: nat)
    requires n <= |cfg.bindings|
  {
    exists i :: 0 <= i < n && Claims(cfg, env, rules, st, name, i)
  }

  lemma ClaimedBelowNext(cfg: Config, env: Env, rules: Rules, st: Store, name: string, i: nat)
    requires i < |cfg.bindings|
    ensures ClaimedBelow(cfg, env, rules, st, name, i + 1)
            <==> ClaimedBelow(cfg, env, rules, st, name, i) || Claims(cfg, env, rules, st, name, i)
  {
    if p :| 0 <= p < i && Claims(cfg, env, rules, st, name, p) {
      assert ClaimedBelow(cfg, env, rules, st, name, i + 1);
    }
  }

  /** The event for one binding, read off the spec, the lookups and the stored roleRefs. */
  function EventOf(cfg: Config, env: Env, rules: Rules, st: Store, i: nat): seq<Event>
    requires i < |cfg.bindings|
  {
    var b := cfg.bindings[i];
    if !KindAllowed(cfg, b.roleRef.kind) then [Event(BindingError, b.group)]
    else match env.lookup(i)
      case Failed(err) =>
        if IsNotFound(err) then [Event(UnknownGroup, b.group)]
        else if IsUnknownMemberships(err) then [Event(BindingError, b.group)]
        else []
      case Found(members) =>
        if members == [] then [Event(Warning, b.group)]
        else if ClaimedBelow(cfg, env, rules, st, NameAt(cfg, i), i) then [Event(Duplicated, NameAt(cfg, i))]
        else if Writable(cfg, env, rules, st, i) then [Event(Configured, NameAt(cfg, i))]
        else [Event(BindingError, NameAt(cfg, i))]
  }

  function Report(cfg: Config, env: Env, rules: Rules, st: Store, n: nat): seq<Event>
    requires n <= |cfg.bindings|
  {
    if n == 0 then [] else Report(cfg, env, rules, st, n - 1) + EventOf(cfg, env, rules, st, n - 1)
  }

  /** Without faults a name is active as soon as it is claimed, and untouched before. */
  lemma {:induction false} ActiveIffClaimed(cfg: Config, env: Env, rules: Rules, st: Store, name: string, n: nat)
    requires n <= |cfg.bindings| && FaultFree(cfg, env)
    ensures var c := CellRun(cfg, env, rules, name, At(st, KeyOf(cfg, name)), n);
            && (c.active <==> ClaimedBelow(cfg, env, rules, st, name, n))
            && (!c.active ==> c.obj == At(st, KeyOf(cfg, name)))
  {
    if n > 0 {
      var was := At(st, KeyOf(cfg, name));
      ActiveIffClaimed(cfg, env, rules, st, name, n - 1);
      ClaimStep(cfg, env, rules, st, name, n - 1, CellRun(cfg, env, rules, name, was, n - 1),
                CellRun(cfg, env, rules, name, was, n));
    }
  }

  lemma ClaimStep(cfg: Config, env: Env, rules: Rules, st: Store, name: string, i: nat, c: Cell, c': Cell)
    requires i < |cfg.bindings| && FaultFree(cfg, env) && c' == CellStep(cfg, env, rules, name, i, c)
    requires c.active <==> ClaimedBelow(cfg, env, rules, st, name, i)
    requires !c.active ==> c.obj == At(st, KeyOf(cfg, name))
    ensures c'.active <==> ClaimedBelow(cfg, env, rules, st, name, i + 1)
    ensures !c'.active ==> c'.obj == c.obj
  {
    ClaimedBelowNext(cfg, env, rules, st, name, i);
  }

  lemma RoundReport(cfg: Config, env: Env, rules: Rules, st: Store, i: nat)
    requires i < |cfg.bindings| && FaultFree(cfg, env)
    ensures BindingLoop(cfg, env, rules, st, i + 1).events
            == BindingLoop(cfg, env, rules, st, i).events + EventOf(cfg, env, rules, st, i)
  {
    var name := NameAt(cfg, i);
    var k := KeyOf(cfg, name);
    ActiveIffClaimed(cfg, env, rules, st, name, i);
    ActiveIffClaimed(cfg, env, rules, st, name, i + 1);
    ClaimedBelowNext(cfg, env, rules, st, name, i);
    LoopFactors(cfg, env, rules, st, i, k);
    LoopFactors(cfg, env, rules, st, i + 1, k);
    StepReport(cfg, env, rules, st, i, BindingLoop(cfg, env, rules, st, i), BindingLoop(cfg, env, rules, st, i + 1));
  }

  lemma StepReport(cfg: Config, env: Env, rules: Rules, st: Store, i: nat, s: Progress, s': Progress)
    requires i < |cfg.bindings| && s' == BindingStep(cfg, env, rules, i, s)
    requires NameAt(cfg, i) in s.active <==> ClaimedBelow(cfg, env, rules, st, NameAt(cfg, i), i)
    requires GoodAt(cfg, env, i) && NameAt(cfg, i) !in s.active ==>
               (NameAt(cfg, i) in s'.active <==> Writable(cfg, env, rules, st, i))
    ensures s'.events == s.events + EventOf(cfg, env, rules, st, i)
  {
  }

  /** A fault-free binding loop sends exactly the events that the spec, the lookups and the stored roleRefs call for. */
  lemma {:induction false} FaultFreeReport(cfg: Config, env: Env, rules: Rules, st: Store, n: nat, s: Progress)
    requires n <= |cfg.bindings| && FaultFree(cfg, env) && s == BindingLoop(cfg, env, rules, st, n)
    ensures s.events == Report(cfg, env, rules, st, n)
  {
    if n > 0 {
      FaultFreeReport(cfg, env, rules, st, n - 1, BindingLoop(cfg, env, rules, st, n - 1));
      RoundReport(cfg, env, rules, st, n - 1);
    }
  }

  // ---- The next poll ----

  /** Failing lookups fail alike. */
  ghost predicate SameErrors(cfg: Config, env: Env, env': Env) {
    forall i :: 0 <= i < |cfg.bindings| && env.lookup(i).Failed? && env'.lookup(i).Failed? ==>
      Cause(env.lookup(i).err) == Cause(env'.lookup(i).err)
  }

  predicate AskedBelow(cfg: Config, env: Env, name: string, n: nat)
    requires n <= |cfg.bindings|
  {
    exists i :: 0 <= i < n && NameAt(cfg, i) == name && (GoodAt(cfg, env, i) || HeldAt(cfg, env, i))
  }

  /** Where nothing is refused, the first binding of the name that has members can be written. */
  lemma FirstIsWritable(cfg: Config, env: Env, rules: Rules, st: Store, name: string, i: nat) returns (j: nat)
    requires i < |cfg.bindings| && GoodAt(cfg, env, i) && NameAt(cfg, i) == name
    requires !Conflicting(cfg, env, rules, st, name)
    ensures j <= i && NameAt(cfg, j) == name && Writable(cfg, env, rules, st, j)
  {
    OracleMeans(cfg, env, i + 1, name);
    OracleGrows(cfg, env, i + 1, |cfg.bindings|, name);
    j :| 0 <= j < i + 1 && GoodAt(cfg, env, j) && NameAt(cfg, j) == name
      && Oracle(cfg, env, i + 1)[name] == DesiredAt(cfg, env, j);
  }

  lemma UnrefusedClaims(cfg: Config, env: Env, rules: Rules, st: Store, name: string, n: nat)
    requires n <= |cfg.bindings| && !Conflicting(cfg, env, rules, st, name)
    ensures ClaimedBelow(cfg, env, rules, st, name, n) <==> AskedBelow(cfg, env, name, n)
    ensures n < |cfg.bindings| && NameAt(cfg, n) == name && GoodAt(cfg, env, n) && !AskedBelow(cfg, env, name, n) ==>
              Writable(cfg, env, rules, st, n)
  {
    if i :| 0 <= i < n && NameAt(cfg, i) == name && (GoodAt(cfg, env, i) || HeldAt(cfg, env, i)) {
      if GoodAt(cfg, env, i) {
        var j := FirstIsWritable(cfg, env, rules, st, name, i);
        assert Claims(cfg, env, rules, st, name, j);
      } else {
        assert Claims(cfg, env, rules, st, name, i);
      }
    }
    if i :| 0 <= i < n && Claims(cfg, env, rules, st, name, i) {
      assert GoodAt(cfg, env, i) || HeldAt(cfg, env, i);
    }
    if n < |cfg.bindings| && NameAt(cfg, n) == name && GoodAt(cfg, env, n) && !AskedBelow(cfg, env, name, n) {
      var j := FirstIsWritable(cfg, env, rules, st, name, n);
    }
  }

  /** What decides on the events of a name is the same in both runs. */
  ghost predicate SameClaims(cfg: Config, env: Env, env': Env, rules: Rules, st: Store, st': Store, i: nat)
    requires i < |cfg.bindings|
  {
    var name := NameAt(cfg, i);
    && (ClaimedBelow(cfg, env, rules, st, name, i) <==> ClaimedBelow(cfg, env', rules, st', name, i))
    && (!ClaimedBelow(cfg, env, rules, st, name, i) ==>
          (Writable(cfg, env, rules, st, i) <==> Writable(cfg, env', rules, st', i)))
  }

  lemma UnrefusedTwice(cfg: Config, env: Env, env': Env, rules: Rules, st: Store, st': Store, i: nat)
    requires i < |cfg.bindings| && SameInputs(cfg, env, env')
    requires !Conflicting(cfg, env, rules, st, NameAt(cfg, i)) && !Conflicting(cfg, env', rules, st', NameAt(cfg, i))
    ensures SameClaims(cfg, env, env', rules, st, st', i)
  {
    UnrefusedClaims(cfg, env, rules, st, NameAt(cfg, i), i);
    UnrefusedClaims(cfg, env', rules, st', NameAt(cfg, i), i);
    forall p | 0 <= p <= i
      ensures GoodAt(cfg, env, p) <==> GoodAt(cfg, env', p)
      ensures HeldAt(cfg, env, p) <==> HeldAt(cfg, env', p)
    {
      SameInputsAt(cfg, env, env', p);
    }
  }

  lemma SameRefTwice(cfg: Config, env: Env, env': Env, rules: Rules, st: Store, st': Store, i: nat)
    requires i < |cfg.bindings| && SameInputs(cfg, env, env')
    requires var k := KeyOf(cfg, NameAt(cfg, i)); k in st && k in st' && st[k].roleRef == st'[k].roleRef
    ensures SameClaims(cfg, env, env', rules, st, st', i)
  {
    forall p | 0 <= p <= i && NameAt(cfg, p) == NameAt(cfg, i)
      ensures Writable(cfg, env, rules, st, p) <==> Writable(cfg, env', rules, st', p)
      ensures Claims(cfg, env, rules, st, NameAt(cfg, i), p) <==> Claims(cfg, env', rules, st', NameAt(cfg, i), p)
    {
      SameInputsAt(cfg, env, env', p);
    }
  }

  /** What a run leaves in the way of a name, if anything, it does not replace. */
  lemma Refusals(cfg: Config, env: Env, env': Env, rules: Rules, cache: Store, st: Store, name: string)
    requires FaultFree(cfg, env) && CurrentCache(cfg, env, rules, cache, st) && SameInputs(cfg, env, env')
    ensures var once, k := Reconciled(cfg, env, rules, cache, st), KeyOf(cfg, name);
            if Conflicting(cfg, env, rules, st, name) && !Replaced(cfg, env, rules, st, name)
            then k in once && once[k].roleRef == st[k].roleRef
            else !Conflicting(cfg, env', rules, once, name)
  {
    var once, k := Reconciled(cfg, env, rules, cache, st), KeyOf(cfg, name);
    ConflictCarries(cfg, env, env', rules, once, name);
    if Conflicting(cfg, env, rules, st, name) {
      RefusedIsCleared(cfg, env, rules, cache, st, name);
      if FitsOther(cfg, env, rules, st, name) {
        FittedStays(cfg, env, rules, cache, st, name);
      }
    } else if ShadowedName(cfg, env, name) {
      ShadowedStays(cfg, env, rules, cache, st, k);
    } else {
      StabilisesAt(cfg, env, rules, cache, st, k);
    }
  }

  lemma EventRepeats(cfg: Config, env: Env, env': Env, rules: Rules, cache: Store, st: Store, i: nat)
    requires FaultFree(cfg, env) && CurrentCache(cfg, env, rules, cache, st)
    requires SameInputs(cfg, env, env') && SameErrors(cfg, env, env')
    requires i < |cfg.bindings| && !Replaced(cfg, env, rules, st, NameAt(cfg, i))
    ensures EventOf(cfg, env', rules, Reconciled(cfg, env, rules, cache, st), i) == EventOf(cfg, env, rules, st, i)
  {
    var once := Reconciled(cfg, env, rules, cache, st);
    Refusals(cfg, env, env', rules, cache, st, NameAt(cfg, i));
    if Conflicting(cfg, env, rules, st, NameAt(cfg, i)) {
      SameRefTwice(cfg, env, env', rules, st, once, i);
    } else {
      UnrefusedTwice(cfg, env, env', rules, st, once, i);
    }
    SameEvent(cfg, env, env', rules, st, once, i);
  }

  lemma SameEvent(cfg: Config, env: Env, env': Env, rules: Rules, st: Store, st': Store, i: nat)
    requires i < |cfg.bindings| && SameInputs(cfg, env, env') && SameErrors(cfg, env, env')
    requires SameClaims(cfg, env, env', rules, st, st', i)
    ensures EventOf(cfg, env', rules, st', i) == EventOf(cfg, env, rules, st, i)
  {
    SameInputsAt(cfg, env, env', i);
    match env.lookup(i)
    case Found(_) =>
      assert SameMembers(env.lookup(i), env'.lookup(i));
    case Failed(err) =>
      assert env'.lookup(i).Failed? && Cause(err) == Cause(env'.lookup(i).err);
  }

  /** A replaced name is an error in the first run and configured in the second. */
  lemma ReplacedIsReported(cfg: Config, env: Env, env': Env, rules: Rules, cache: Store, st: Store, name: string)
    returns (i: nat)
    requires FaultFree(cfg, env) && CurrentCache(cfg, env, rules, cache, st) && SameInputs(cfg, env, env')
    requires Replaced(cfg, env, rules, st, name)
    ensures i < |cfg.bindings| && NameAt(cfg, i) == name
    ensures EventOf(cfg, env, rules, st, i) == [Event(BindingError, name)]
    ensures EventOf(cfg, env', rules, Reconciled(cfg, env, rules, cache, st), i) != [Event(BindingError, name)]
  {
    var once := Reconciled(cfg, env, rules, cache, st);
    OracleMeans(cfg, env, |cfg.bindings|, name);
    i :| 0 <= i < |cfg.bindings| && GoodAt(cfg, env, i) && NameAt(cfg, i) == name;
    RefusedIsCleared(cfg, env, rules, cache, st, name);
    SameInputsAt(cfg, env, env', i);
    assert Writable(cfg, env', rules, once, i);
    forall p | 0 <= p < |cfg.bindings| && NameAt(cfg, p) == name
      ensures !Claims(cfg, env, rules, st, name, p)
    {
      assert GoodAt(cfg, env, p) ==> cfg.bindings[p].roleRef != st[KeyOf(cfg, name)].roleRef;
    }
  }

  lemma EventCounts(cfg: Config, env: Env, env': Env, rules: Rules, st: Store, st': Store, i: nat)
    requires i < |cfg.bindings| && SameInputs(cfg, env, env') && SameErrors(cfg, env, env')
    ensures |EventOf(cfg, env, rules, st, i)| == |EventOf(cfg, env', rules, st', i)|
  {
    if env.lookup(i).Failed? {
      assert Cause(env.lookup(i).err) == Cause(env'.lookup(i).err);
    }
  }

  ghost predicate EventsRepeat(cfg: Config, env: Env, env': Env, rules: Rules, st: Store, st': Store, n: nat)
    requires n <= |cfg.bindings|
  {
    forall i :: 0 <= i < n ==> EventOf(cfg, env', rules, st', i) == EventOf(cfg, env, rules, st, i)
  }

  lemma EventsRepeatNext(cfg: Config, env: Env, env': Env, rules: Rules, st: Store, st': Store, i: nat)
    requires i < |cfg.bindings|
    ensures EventsRepeat(cfg, env, env', rules, st, st', i + 1)
            <==> EventsRepeat(cfg, env, env', rules, st, st', i)
                 && EventOf(cfg, env', rules, st', i) == EventOf(cfg, env, rules, st, i)
  {
  }

  lemma {:induction false} SameReportIff(cfg: Config, env: Env, env': Env, rules: Rules, st: Store, st': Store, n: nat)
    requires n <= |cfg.bindings| && SameInputs(cfg, env, env') && SameErrors(cfg, env, env')
    ensures var a, b := Report(cfg, env, rules, st, n), Report(cfg, env', rules, st', n);
            |b| == |a| && (b == a <==> EventsRepeat(cfg, env, env', rules, st, st', n))
  {
    if n > 0 {
      SameReportIff(cfg, env, env', rules, st, st', n - 1);
      ReportNext(cfg, env, env', rules, st, st', n - 1,
                 Report(cfg, env, rules, st, n - 1), Report(cfg, env', rules, st', n - 1),
                 Report(cfg, env, rules, st, n), Report(cfg, env', rules, st', n));
    }
  }

  lemma ReportNext(cfg: Config, env: Env, env': Env, rules: Rules, st: Store, st': Store, i: nat,
                   a: seq<Event>, b: seq<Event>, a': seq<Event>, b': seq<Event>)
    requires i < |cfg.bindings| && SameInputs(cfg, env, env') && SameErrors(cfg, env, env')
    requires |b| == |a| && (b == a <==> EventsRepeat(cfg, env, env', rules, st, st', i))
    requires a' == a + EventOf(cfg, env, rules, st, i) && b' == b + EventOf(cfg, env', rules, st', i)
    ensures |b'| == |a'| && (b' == a' <==> EventsRepeat(cfg, env, env', rules, st, st', i + 1))
  {
    EventsRepeatNext(cfg, env, env', rules, st, st', i);
    EventCounts(cfg, env, env', rules, st, st', i);
    Concatenated(a, EventOf(cfg, env, rules, st, i), b, EventOf(cfg, env', rules, st', i));
  }

  lemma Concatenated(a: seq<Event>, x: seq<Event>, b: seq<Event>, y: seq<Event>)
    requires |a| == |b|
    ensures b + y == a + x <==> b == a && y == x
  {
    if b + y == a + x {
      assert b == (b + y)[..|b|] && a == (a + x)[..|a|];
      assert y == (b + y)[|b|..] && x == (a + x)[|a|..];
    }
  }

  /**
   A second fault-free reconcile with the same inputs finds nothing to delete; it sends the binding events of the first
   again, in the same order, exactly if the first did not have to delete a refused object.
   */
  lemma SecondRunRepeatsEvents(cfg: Config, env: Env, env': Env, rules: Rules, cache: Store, cache': Store, st: Store)
    requires FaultFree(cfg, env) && CurrentCache(cfg, env, rules, cache, st)
    requires FaultFree(cfg, env') && SameInputs(cfg, env, env') && SameErrors(cfg, env, env')
    requires CurrentCache(cfg, env', rules, cache', Reconciled(cfg, env, rules, cache, st))
    ensures var s := AfterBindings(cfg, env, rules, st);
            var s' := AfterBindings(cfg, env', rules, Reconciled(cfg, env, rules, cache, st));
            && (s'.events == s.events <==> forall name :: !Replaced(cfg, env, rules, st, name))
            && Doomed(cfg, env', cache', s'.active) == {}
  {
    var once, n := Reconciled(cfg, env, rules, cache, st), |cfg.bindings|;
    var s' := AfterBindings(cfg, env', rules, once);
    FaultFreeReport(cfg, env, rules, st, n, AfterBindings(cfg, env, rules, st));
    FaultFreeReport(cfg, env', rules, once, n, s');
    SameReportIff(cfg, env, env', rules, st, once, n);
    EventsRepeatIff(cfg, env, env', rules, cache, st);
    forall k
      ensures k !in Doomed(cfg, env', cache', s'.active)
    {
      NothingDoomed(cfg, env, env', rules, cache, cache', st, k);
    }
  }

  lemma EventsRepeatIff(cfg: Config, env: Env, env': Env, rules: Rules, cache: Store, st: Store)
    requires FaultFree(cfg, env) && CurrentCache(cfg, env, rules, cache, st)
    requires SameInputs(cfg, env, env') && SameErrors(cfg, env, env')
    ensures var once := Reconciled(cfg, env, rules, cache, st);
            EventsRepeat(cfg, env, env', rules, st, once, |cfg.bindings|)
            <==> forall name :: !Replaced(cfg, env, rules, st, name)
  {
    if name :| Replaced(cfg, env, rules, st, name) {
      var i := ReplacedIsReported(cfg, env, env', rules, cache, st, name);
    } else {
      forall i | 0 <= i < |cfg.bindings|
        ensures EventOf(cfg, env', rules, Reconciled(cfg, env, rules, cache, st), i) == EventOf(cfg, env, rules, st, i)
      {
        EventRepeats(cfg, env, env', rules, cache, st, i);
      }
    }
  }

  lemma NothingDoomed(cfg: Config, env: Env, env': Env, rules: Rules, cache: Store, cache': Store, st: Store, k: Key)
    requires FaultFree(cfg, env) && CurrentCache(cfg, env, rules, cache, st)
    requires FaultFree(cfg, env') && SameInputs(cfg, env, env')
    requires CurrentCache(cfg, env', rules, cache', Reconciled(cfg, env, rules, cache, st))
    ensures var once := Reconciled(cfg, env, rules, cache, st);
            k !in Doomed(cfg, env', cache', AfterBindings(cfg, env', rules, once).active)
  {
    var once := Reconciled(cfg, env, rules, cache, st);
    var s', n := AfterBindings(cfg, env', rules, once), |cfg.bindings|;
    if AtHome(cfg, k) && k.name !in s'.active {
      assert k == KeyOf(cfg, k.name);
      LoopFactors(cfg, env', rules, once, n, k);
      ActiveIffClaimed(cfg, env', rules, once, k.name, n);
      assert AgreeAt(cache', once, k);
      UnclaimedIsNotOwned(cfg, env, env', rules, cache, st, k);
    }
  }

  lemma UnclaimedIsNotOwned(cfg: Config, env: Env, env': Env, rules: Rules, cache: Store, st: Store, k: Key)
    requires FaultFree(cfg, env) && CurrentCache(cfg, env, rules, cache, st) && SameInputs(cfg, env, env')
    requires AtHome(cfg, k)
    requires !ClaimedBelow(cfg, env', rules, Reconciled(cfg, env, rules, cache, st), k.name, |cfg.bindings|)
    ensures var once := Reconciled(cfg, env, rules, cache, st); k in once ==> !Owned(cfg, once[k])
  {
    var once, n := Reconciled(cfg, env, rules, cache, st), |cfg.bindings|;
    assert k == KeyOf(cfg, k.name);
    Refusals(cfg, env, env', rules, cache, st, k.name);
    if Conflicting(cfg, env', rules, once, k.name) {
      RefusedIsCleared(cfg, env, rules, cache, st, k.name);
      UnclaimedFitsNothing(cfg, env, env', rules, st, once, k.name);
    } else {
      UnrefusedClaims(cfg, env', rules, once, k.name, n);
      UnaskedIsUnlisted(cfg, env, env', k.name);
      UnlistedAt(cfg, env, rules, cache, st, k);
    }
  }

  lemma UnclaimedFitsNothing(cfg: Config, env: Env, env': Env, rules: Rules, st: Store, once: Store, name: string)
    requires SameInputs(cfg, env, env') && Conflicting(cfg, env, rules, st, name)
    requires var k := KeyOf(cfg, name); k in once && once[k].roleRef == st[k].roleRef
    requires !ClaimedBelow(cfg, env', rules, once, name, |cfg.bindings|)
    ensures !FitsOther(cfg, env, rules, st, name) && !HeldName(cfg, env, name)
  {
    forall i | 0 <= i < |cfg.bindings| && NameAt(cfg, i) == name
      ensures !HeldAt(cfg, env, i)
      ensures GoodAt(cfg, env, i) ==> cfg.bindings[i].roleRef != st[KeyOf(cfg, name)].roleRef
    {
      SameInputsAt(cfg, env, env', i);
      assert !Claims(cfg, env', rules, once, name, i);
    }
  }

  lemma UnaskedIsUnlisted(cfg: Config, env: Env, env': Env, name: string)
    requires SameInputs(cfg, env, env') && !AskedBelow(cfg, env', name, |cfg.bindings|)
    ensures !Listed(cfg, env, name)
  {
    OracleMeans(cfg, env, |cfg.bindings|, name);
    forall i | 0 <= i < |cfg.bindings| && NameAt(cfg, i) == name
      ensures !GoodAt(cfg, env, i) && !HeldAt(cfg, env, i)
    {
      SameInputsAt(cfg, env, env', i);
    }
  }
}
