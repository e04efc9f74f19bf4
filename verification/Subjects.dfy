/**
 Subject lists and their normal form (pkg/groups/subjects.go).

 Normalising goes through a Go map, whose iteration order is arbitrary, and then sorts by Name alone. A `Walk` is
 one iteration order of the map; every statement below quantifies over walks.
 */
module Subjects {
  import opened Text

  datatype Subject = Subject(kind: string, apiGroup: string, name: string, ns: string)

  function Elems(s: seq<Subject>): set<Subject> {
    set x | x in s
  }

  function Names(s: seq<Subject>): seq<string> {
    seq(|s|, i requires 0 <= i < |s| => s[i].name)
  }

  ghost predicate Distinct(s: seq<Subject>) {
    forall i, j :: 0 <= i < j < |s| ==> s[i] != s[j]
  }

  ghost predicate Sorted(s: seq<Subject>) {
    forall i, j :: 0 <= i < j < |s| ==> !Less(s[j].name, s[i].name)
  }

  /** One order in which a Go `range` may visit the keys of the map `uniq`. */
  ghost predicate Walk(w: seq<Subject>, uniq: set<Subject>) {
    Distinct(w) && Elems(w) == uniq
  }

  /** Sorted by Name, without repeats, holding exactly `uniq`. */
  ghost predicate Canonical(s: seq<Subject>, uniq: set<Subject>) {
    Walk(s, uniq) && Sorted(s)
  }

  ghost predicate NamesDistinct(uniq: set<Subject>) {
    forall x, y :: x in uniq && y in uniq && x.name == y.name ==> x == y
  }

  /** The entries of `s` called `n`, in the order in which they stand. */
  function Named(s: seq<Subject>, n: string): (r: seq<Subject>) {
    if s == [] then []
    else Named(s[..|s| - 1], n) + if s[|s| - 1].name == n then [s[|s| - 1]] else []
  }

  /** Places `x` after every entry whose Name is not greater. */
  function Insert(s: seq<Subject>, x: Subject): seq<Subject> {
    if s == [] || !Less(x.name, s[|s| - 1].name) then s + [x]
    else Insert(s[..|s| - 1], x) + [s[|s| - 1]]
  }

  function StableSort(w: seq<Subject>): seq<Subject> {
    if w == [] then [] else Insert(StableSort(w[..|w| - 1]), w[|w| - 1])
  }

  lemma ElemsConcat(s: seq<Subject>, t: seq<Subject>)
    ensures Elems(s + t) == Elems(s) + Elems(t)
  {
  }

  // ---- The sort: what it computes, and that stability leaves it no freedom ----

  lemma {:induction false} NamedAt(s: seq<Subject>, n: string)
    ensures forall x :: x in Named(s, n) <==> x in s && x.name == n
  {
    if s != [] {
      NamedAt(s[..|s| - 1], n);
      assert s == s[..|s| - 1] + [s[|s| - 1]];
    }
  }

  lemma SortedSnoc(s: seq<Subject>, x: Subject)
    requires Sorted(s) && forall y :: y in s ==> !Less(x.name, y.name)
    ensures Sorted(s + [x])
  {
  }

  lemma LastIsGreatest(s: seq<Subject>, x: Subject)
    requires Sorted(s) && s != [] && !Less(x.name, s[|s| - 1].name)
    ensures forall y :: y in s ==> !Less(x.name, y.name)
  {
    forall i | 0 <= i < |s| - 1
      ensures !Less(x.name, s[i].name)
    {
      AtMostTransitive(s[i].name, s[|s| - 1].name, x.name);
    }
  }

  lemma {:induction false} InsertSorted(s: seq<Subject>, x: Subject)
    requires Sorted(s)
    ensures Sorted(Insert(s, x))
    ensures forall y :: y in Insert(s, x) <==> y == x || y in s
  {
    if s == [] {
    } else if !Less(x.name, s[|s| - 1].name) {
      LastIsGreatest(s, x);
      SortedSnoc(s, x);
    } else {
      var front, last := s[..|s| - 1], s[|s| - 1];
      assert s == front + [last];
      InsertSorted(front, x);
      LessAsymmetric(x.name, last.name);
      SortedSnoc(Insert(front, x), last);
    }
  }

  lemma {:induction false} InsertNamed(s: seq<Subject>, x: Subject, n: string)
    ensures Named(Insert(s, x), n) == Named(s + [x], n)
  {
    if s == [] || !Less(x.name, s[|s| - 1].name) {
    } else {
      var front, last := s[..|s| - 1], s[|s| - 1];
      LessIrreflexive(x.name);
      InsertNamed(front, x, n);
      assert (s + [x])[..|s|] == s;
      assert (front + [x])[..|front|] == front;
      assert (Insert(front, x) + [last])[..|Insert(front, x)|] == Insert(front, x);
    }
  }

  lemma {:induction false} SortSorted(w: seq<Subject>)
    ensures Sorted(StableSort(w))
  {
    if w != [] {
      SortSorted(w[..|w| - 1]);
      InsertSorted(StableSort(w[..|w| - 1]), w[|w| - 1]);
    }
  }

  /** Entries that share a Name keep the order they had. */
  lemma {:induction false} SortStable(w: seq<Subject>, n: string)
    ensures Named(StableSort(w), n) == Named(w, n)
  {
    if w != [] {
      var front, last := w[..|w| - 1], w[|w| - 1];
      SortStable(front, n);
      InsertNamed(StableSort(front), last, n);
      assert (StableSort(front) + [last])[..|StableSort(front)|] == StableSort(front);
    }
  }

  lemma NamedDropLast(s: seq<Subject>, t: seq<Subject>, n: string)
    requires s != [] && t != [] && s[|s| - 1].name == t[|t| - 1].name
    ensures |Named(s, n)| == |Named(t, n)| ==> |Named(s[..|s| - 1], n)| == |Named(t[..|t| - 1], n)|
    ensures Named(s, n) == Named(t, n) ==> Named(s[..|s| - 1], n) == Named(t[..|t| - 1], n)
    ensures Named(s, n) == Named(t, n) && s[|s| - 1].name == n ==> s[|s| - 1] == t[|t| - 1]
  {
    var a, b := Named(s[..|s| - 1], n), Named(t[..|t| - 1], n);
    var x, y := s[|s| - 1], t[|t| - 1];
    if x.name == n {
      assert Named(s, n) == a + [x] && Named(t, n) == b + [y];
      SnocCancels(a, x, b, y);
    } else {
      assert Named(s, n) == a && Named(t, n) == b;
    }
  }

  lemma SnocCancels(a: seq<Subject>, x: Subject, b: seq<Subject>, y: Subject)
    ensures a + [x] == b + [y] ==> a == b && x == y
  {
    if a + [x] == b + [y] {
      assert |a| + 1 == |a + [x]| == |b| + 1;
      assert a == (a + [x])[..|a|] && b == (b + [y])[..|b|];
      assert x == (a + [x])[|a|] && y == (b + [y])[|b|];
    }
  }

  lemma LastNamesAgree(s: seq<Subject>, t: seq<Subject>)
    requires Sorted(s) && Sorted(t) && s != []
    requires forall n :: |Named(s, n)| == |Named(t, n)|
    ensures t != [] && s[|s| - 1].name == t[|t| - 1].name
  {
    var m := s[|s| - 1].name;
    assert s[|s| - 1] in Named(s, m) by { NamedAt(s, m); }
    NamedAt(t, m);
    assert Named(t, m)[0] in t;
    var i :| 0 <= i < |t| && t[i].name == m;
    var m' := t[|t| - 1].name;
    assert t[|t| - 1] in Named(t, m') by { NamedAt(t, m'); }
    NamedAt(s, m');
    assert Named(s, m')[0] in s;
    var j :| 0 <= j < |s| && s[j].name == m';
    LessTotal(m, m');
  }

  lemma SomeoneNamed(t: seq<Subject>)
    ensures (forall n :: |Named(t, n)| == 0) ==> t == []
  {
    if t != [] {
      NamedAt(t, t[0].name);
      assert t[0] in Named(t, t[0].name);
    }
  }

  /** A sorted list is fixed by its runs of equal Names: "stable sort by Name" has exactly one result. */
  lemma {:induction false} StableSortUnique(s: seq<Subject>, t: seq<Subject>)
    requires Sorted(s) && Sorted(t)
    requires forall n :: Named(s, n) == Named(t, n)
    ensures s == t
    decreases |s|
  {
    if s == [] {
      SomeoneNamed(t);
    } else {
      LastNamesAgree(s, t);
      var s', t' := s[..|s| - 1], t[..|t| - 1];
      forall n
        ensures Named(s', n) == Named(t', n)
      {
        NamedDropLast(s, t, n);
      }
      NamedDropLast(s, t, s[|s| - 1].name);
      StableSortUnique(s', t');
      assert s == s' + [s[|s| - 1]] && t == t' + [t[|t| - 1]];
    }
  }

  lemma NamesSnoc(s: seq<Subject>)
    requires s != []
    ensures Names(s) == Names(s[..|s| - 1]) + [s[|s| - 1].name]
  {
  }

  lemma {:induction false} SameCountsSameNames(s: seq<Subject>, t: seq<Subject>)
    requires Sorted(s) && Sorted(t)
    requires forall n :: |Named(s, n)| == |Named(t, n)|
    ensures Names(s) == Names(t)
    decreases |s|
  {
    if s == [] {
      SomeoneNamed(t);
    } else {
      LastNamesAgree(s, t);
      var s', t' := s[..|s| - 1], t[..|t| - 1];
      forall n
        ensures |Named(s', n)| == |Named(t', n)|
      {
        NamedDropLast(s, t, n);
      }
      SameCountsSameNames(s', t');
      NamesSnoc(s);
      NamesSnoc(t);
    }
  }

  // ---- The canonical form ----

  function Called(uniq: set<Subject>, n: string): set<Subject> {
    set x | x in uniq && x.name == n
  }

  lemma CalledDrop(uniq: set<Subject>, x: Subject, n: string)
    requires x in uniq
    ensures |Called(uniq, n)| == |Called(uniq - {x}, n)| + if x.name == n then 1 else 0
  {
    if x.name == n {
      assert Called(uniq, n) == Called(uniq - {x}, n) + {x};
    } else {
      assert Called(uniq, n) == Called(uniq - {x}, n);
    }
  }

  lemma WalkDropLast(w: seq<Subject>, uniq: set<Subject>)
    requires Walk(w, uniq) && w != []
    ensures w[|w| - 1] in uniq && Walk(w[..|w| - 1], uniq - {w[|w| - 1]})
  {
    var front, last := w[..|w| - 1], w[|w| - 1];
    assert w == front + [last];
    ElemsConcat(front, [last]);
    assert last !in front && last in Elems(w);
  }

  lemma {:induction false} NamedCount(w: seq<Subject>, uniq: set<Subject>, n: string)
    requires Walk(w, uniq)
    ensures |Named(w, n)| == |Called(uniq, n)|
  {
    if w == [] {
      assert Called(uniq, n) == {};
    } else {
      WalkDropLast(w, uniq);
      NamedCount(w[..|w| - 1], uniq - {w[|w| - 1]}, n);
      CalledDrop(uniq, w[|w| - 1], n);
    }
  }

  /** Whatever the walks were, two normal forms of one set show the same Names at the same places. */
  lemma CanonicalNames(s: seq<Subject>, t: seq<Subject>, uniq: set<Subject>)
    requires Canonical(s, uniq) && Canonical(t, uniq)
    ensures Names(s) == Names(t)
  {
    forall n
      ensures |Named(s, n)| == |Named(t, n)|
    {
      NamedCount(s, uniq, n);
      NamedCount(t, uniq, n);
    }
    SameCountsSameNames(s, t);
  }

  lemma CanonicalUnique(s: seq<Subject>, t: seq<Subject>, uniq: set<Subject>)
    requires Canonical(s, uniq) && Canonical(t, uniq) && NamesDistinct(uniq)
    ensures s == t
  {
    CanonicalNames(s, t, uniq);
    assert |s| == |Names(s)| == |Names(t)| == |t|;
    forall i | 0 <= i < |s|
      ensures s[i] == t[i]
    {
      assert Names(s)[i] == Names(t)[i];
      assert s[i] in Elems(s) && t[i] in Elems(t);
    }
  }

  lemma SortKeepsElems(w: seq<Subject>)
    ensures Elems(StableSort(w)) == Elems(w) && |StableSort(w)| == |w|
  {
    forall x
      ensures x in StableSort(w) <==> x in w
    {
      SortStable(w, x.name);
      NamedAt(w, x.name);
      NamedAt(StableSort(w), x.name);
    }
    SortLength(w);
  }

  lemma {:induction false} SortLength(w: seq<Subject>)
    ensures |StableSort(w)| == |w|
  {
    if w != [] {
      SortLength(w[..|w| - 1]);
      InsertLength(StableSort(w[..|w| - 1]), w[|w| - 1]);
    }
  }

  lemma {:induction false} InsertLength(s: seq<Subject>, x: Subject)
    ensures |Insert(s, x)| == |s| + 1
  {
    if s == [] || !Less(x.name, s[|s| - 1].name) {
    } else {
      InsertLength(s[..|s| - 1], x);
    }
  }

  lemma {:induction false} DistinctSize(s: seq<Subject>)
    ensures |Elems(s)| <= |s|
    ensures Distinct(s) <==> |Elems(s)| == |s|
  {
    if s != [] {
      var front, last := s[..|s| - 1], s[|s| - 1];
      DistinctSize(front);
      assert s == front + [last];
      assert Elems(s) == Elems(front) + {last};
      DistinctSnoc(front, last);
    }
  }

  lemma DistinctSnoc(front: seq<Subject>, last: Subject)
    ensures Distinct(front + [last]) <==> Distinct(front) && last !in front
  {
    var s := front + [last];
    if Distinct(s) {
      assert forall i :: 0 <= i < |front| ==> s[i] == front[i] && s[i] != s[|front|];
    }
  }

  /** Sorting any walk of a set gives a canonical list of that set. */
  lemma SortedWalkIsCanonical(w: seq<Subject>, uniq: set<Subject>)
    requires Walk(w, uniq)
    ensures Canonical(StableSort(w), uniq)
  {
    SortSorted(w);
    SortKeepsElems(w);
    DistinctSize(w);
    DistinctSize(StableSort(w));
  }

  lemma {:induction false} SomeWalk(uniq: set<Subject>) returns (w: seq<Subject>)
    ensures Walk(w, uniq)
  {
    w := [];
    if uniq != {} {
      var x :| x in uniq;
      var front := SomeWalk(uniq - {x});
      w := front + [x];
      ElemsConcat(front, [x]);
      assert x !in Elems(front);
    }
  }

  lemma NamedPrefix(x: Subject, y: Subject, rest: seq<Subject>, n: string)
    requires x.name == n
    ensures |Named([x, y] + rest, n)| > 0 && Named([x, y] + rest, n)[0] == x
    decreases |rest|
  {
    var s := [x, y] + rest;
    if rest == [] {
      assert s[..1] == [x] && s[..1][..0] == [];
      assert Named([x], n) == [x];
    } else {
      assert s[..|s| - 1] == [x, y] + rest[..|rest| - 1];
      NamedPrefix(x, y, rest[..|rest| - 1], n);
    }
  }

  lemma SortedWalksAgree(uniq: set<Subject>, w1: seq<Subject>, w2: seq<Subject>)
    requires Walk(w1, uniq) && Walk(w2, uniq) && NamesDistinct(uniq)
    ensures StableSort(w1) == StableSort(w2)
  {
    SortedWalkIsCanonical(w1, uniq);
    SortedWalkIsCanonical(w2, uniq);
    CanonicalUnique(StableSort(w1), StableSort(w2), uniq);
  }

  lemma PairWalk(uniq: set<Subject>, x: Subject, y: Subject, rest: seq<Subject>)
    requires x in uniq && y in uniq && x != y && Walk(rest, uniq - {x, y})
    ensures Walk([x, y] + rest, uniq)
  {
    assert x !in Elems(rest) && y !in Elems(rest);
    ElemsConcat([x, y], rest);
    assert Elems([x, y]) == {x, y};
  }

  lemma SortedWalksDisagree(uniq: set<Subject>, x: Subject, y: Subject) returns (w1: seq<Subject>, w2: seq<Subject>)
    requires x in uniq && y in uniq && x.name == y.name && x != y
    ensures Walk(w1, uniq) && Walk(w2, uniq) && StableSort(w1) != StableSort(w2)
  {
    var rest := SomeWalk(uniq - {x, y});
    w1, w2 := [x, y] + rest, [y, x] + rest;
    PairWalk(uniq, x, y, rest);
    PairWalk(uniq, y, x, rest);
    NamedPrefix(x, y, rest, x.name);
    NamedPrefix(y, x, rest, x.name);
    SortStable(w1, x.name);
    SortStable(w2, x.name);
  }

  /** Two canonical lists of a set, which differ if they can. */
  lemma TwoCanonical(uniq: set<Subject>) returns (s: seq<Subject>, t: seq<Subject>)
    ensures Canonical(s, uniq) && Canonical(t, uniq)
    ensures s == t <==> NamesDistinct(uniq)
  {
    if NamesDistinct(uniq) {
      var w := SomeWalk(uniq);
      SortedWalkIsCanonical(w, uniq);
      return StableSort(w), StableSort(w);
    }
    var x, y :| x in uniq && y in uniq && x.name == y.name && x != y;
    var w1, w2 := SortedWalksDisagree(uniq, x, y);
    SortedWalkIsCanonical(w1, uniq);
    SortedWalkIsCanonical(w2, uniq);
    s, t := StableSort(w1), StableSort(w2);
  }

  /**
   The normal form is the same list for every walk exactly when distinct subjects have distinct Names: the promise
   "sorted and unique" fixes the list on these inputs and on no others.
   */
  lemma CanonicalFormIff(uniq: set<Subject>)
    ensures (forall w1, w2 :: Walk(w1, uniq) && Walk(w2, uniq) ==> StableSort(w1) == StableSort(w2))
            <==> NamesDistinct(uniq)
  {
    if NamesDistinct(uniq) {
      forall w1, w2 | Walk(w1, uniq) && Walk(w2, uniq)
        ensures StableSort(w1) == StableSort(w2)
      {
        SortedWalksAgree(uniq, w1, w2);
      }
    } else {
      var x, y :| x in uniq && y in uniq && x.name == y.name && x != y;
      var w1, w2 := SortedWalksDisagree(uniq, x, y);
    }
  }

  /** A canonical list whose Names are distinct is a fixed point of normalisation, for every walk. */
  lemma NormalizeIdempotent(s: seq<Subject>, w: seq<Subject>)
    requires Canonical(s, Elems(s)) && NamesDistinct(Elems(s)) && Walk(w, Elems(s))
    ensures StableSort(w) == s
  {
    SortedWalkIsCanonical(w, Elems(s));
    CanonicalUnique(StableSort(w), s, Elems(s));
  }

  /** Any two entries have one Name, or at the first difference the earlier one has the smaller character or ends. */
  ghost predicate Ascending(s: seq<Subject>) {
    forall i, j :: 0 <= i < j < |s| ==>
      s[i].name == s[j].name || exists n: nat :: FirstSmallerAt(s[i].name, s[j].name, n)
  }

  lemma SortedIff(s: seq<Subject>)
    ensures Sorted(s) <==> Ascending(s)
  {
    forall i, j | 0 <= i < j < |s|
      ensures !Less(s[j].name, s[i].name) <==>
              s[i].name == s[j].name || exists n: nat :: FirstSmallerAt(s[i].name, s[j].name, n)
    {
      LessIff(s[i].name, s[j].name);
      LessTotal(s[i].name, s[j].name);
      if Less(s[i].name, s[j].name) {
        LessAsymmetric(s[i].name, s[j].name);
      }
      LessIrreflexive(s[i].name);
    }
  }

  // ---- The code ----

  lemma InsertPasses(s: seq<Subject>, x: Subject, i: nat, j: nat)
    requires 0 < j <= i <= |s| && Less(x.name, s[j - 1].name)
    ensures Insert(s[..j], x) + s[j..i] == Insert(s[..j - 1], x) + s[j - 1..i]
  {
    assert s[..j][..j - 1] == s[..j - 1];
    assert s[j - 1..i] == [s[j - 1]] + s[j..i];
  }

  /** One round of the sort: moves entry `i` left past the entries with greater Names. */
  method SinkLeft(a: array<Subject>, i: nat)
    requires i < a.Length
    modifies a
    ensures a[..i + 1] == Insert(old(a[..i]), old(a[i]))
    ensures a[i + 1..] == old(a[i + 1..])
  {
    ghost var all, x := a[..], a[i];
    var j := i;
    while j > 0 && Less(a[j].name, a[j - 1].name)
      invariant 0 <= j <= i
      invariant a[j] == x
      invariant forall k :: 0 <= k < j || i < k < a.Length ==> a[k] == all[k]
      invariant forall k :: j < k <= i ==> a[k] == all[k - 1]
      invariant Insert(all[..i], x) == Insert(all[..j], x) + all[j..i]
    {
      InsertPasses(all, x, i, j);
      a[j], a[j - 1] := a[j - 1], a[j];
      j := j - 1;
    }
    assert Insert(all[..j], x) == all[..j] + [x];
    SunkParts(all, a[..], x, i, j);
    assert a[..i + 1] == a[..][..i + 1] && a[i + 1..] == a[..][i + 1..];
    assert all[..i] == old(a[..i]) && all[i + 1..] == old(a[i + 1..]);
  }

  lemma SunkParts(all: seq<Subject>, now: seq<Subject>, x: Subject, i: nat, j: nat)
    requires j <= i < |all| == |now| && now[j] == x
    requires forall k :: 0 <= k < j || i < k < |all| ==> now[k] == all[k]
    requires forall k :: j < k <= i ==> now[k] == all[k - 1]
    ensures now[..i + 1] == all[..j] + [x] + all[j..i]
    ensures now[i + 1..] == all[i + 1..]
  {
  }

  /** Sorts in place by Name; a stable sort has one possible result (`StableSortUnique`). */
  method SortSubjects(a: array<Subject>)
    modifies a
    ensures a[..] == StableSort(old(a[..]))
    ensures Ascending(a[..])
  {
    for i := 0 to a.Length
      invariant a[..i] == StableSort(old(a[..i]))
      invariant a[i..] == old(a[i..])
    {
      assert a[i] == old(a[i..])[0];
      assert old(a[i..])[1..] == old(a[i + 1..]) && a[i..][1..] == a[i + 1..];
      SinkLeft(a, i);
      assert old(a[..i + 1])[..i] == old(a[..i]);
    }
    assert a[..] == a[..a.Length] && old(a[..]) == old(a[..a.Length]);
    SortSorted(old(a[..]));
    SortedIff(a[..]);
  }

  method NormalizeUniq(uniq: set<Subject>) returns (r: array<Subject>)
    ensures fresh(r) && Canonical(r[..], uniq) && Ascending(r[..])
  {
    var subjects, rest := [], uniq;
    while rest != {}
      invariant rest <= uniq
      invariant Walk(subjects, uniq - rest)
    {
      var subject :| subject in rest;
      assert subject !in Elems(subjects);
      ElemsConcat(subjects, [subject]);
      subjects, rest := subjects + [subject], rest - {subject};
    }
    r := new Subject[|subjects|](i requires 0 <= i < |subjects| => subjects[i]);
    assert r[..] == subjects;
    SortedWalkIsCanonical(subjects, uniq);
    SortSubjects(r);
  }

  /** The argument is only read; the result depends on nothing but its set of subjects. */
  method Normalize(subjects: seq<Subject>) returns (r: array<Subject>)
    ensures fresh(r) && Canonical(r[..], Elems(subjects))
  {
    var uniq: set<Subject> := {};
    for i := 0 to |subjects|
      invariant uniq == Elems(subjects[..i])
    {
      uniq := uniq + {subjects[i]};
      assert subjects[..i + 1] == subjects[..i] + [subjects[i]];
    }
    assert subjects[..|subjects|] == subjects;
    r := NormalizeUniq(uniq);
  }
}
