/** Strings are ordered as Go orders them: lexicographically, element by element. */
module Text {

  predicate Less(a: string, b: string)
  {
    if b == "" then false
    else if a == "" then true
    else a[0] < b[0] || (a[0] == b[0] && Less(a[1..], b[1..]))
  }

  /** Up to `n` the strings agree; there `a` ends, or has the smaller character. */
  predicate FirstSmallerAt(a: string, b: string, n: nat) {
    n <= |a| && n < |b| && a[..n] == b[..n] && (n == |a| || a[n] < b[n])
  }

  lemma FirstAgree(a: string, b: string, n: nat)
    requires FirstSmallerAt(a, b, n)
    ensures n > 0 ==> a[0] == b[0]
  {
    if n > 0 {
      assert a[..n][0] == b[..n][0];
    }
  }

  /** The first difference decides, and a proper prefix comes first, whatever the lengths. */
  lemma {:induction false} LessIff(a: string, b: string)
    ensures Less(a, b) <==> exists n: nat :: FirstSmallerAt(a, b, n)
  {
    if a == "" || b == "" {
      assert a == "" && b != "" ==> FirstSmallerAt(a, b, 0);
    } else if a[0] != b[0] {
      if n: nat :| FirstSmallerAt(a, b, n) {
        FirstAgree(a, b, n);
      }
      assert a[0] < b[0] ==> FirstSmallerAt(a, b, 0);
    } else {
      LessIff(a[1..], b[1..]);
      if n: nat :| FirstSmallerAt(a[1..], b[1..], n) {
        assert a[..n + 1] == [a[0]] + a[1..][..n] && b[..n + 1] == [b[0]] + b[1..][..n];
        assert FirstSmallerAt(a, b, n + 1);
      }
      if n: nat :| FirstSmallerAt(a, b, n) {
        assert n > 0 && a[1..][..n - 1] == a[..n][1..] && b[1..][..n - 1] == b[..n][1..];
        assert FirstSmallerAt(a[1..], b[1..], n - 1);
      }
    }
  }

  lemma {:induction false} LessIrreflexive(a: string)
    ensures !Less(a, a)
  {
    if a != "" {
      LessIrreflexive(a[1..]);
    }
  }

  lemma {:induction false} LessTransitive(a: string, b: string, c: string)
    requires Less(a, b) && Less(b, c)
    ensures Less(a, c)
  {
    if a != "" && a[0] == b[0] == c[0] {
      LessTransitive(a[1..], b[1..], c[1..]);
    }
  }

  lemma LessAsymmetric(a: string, b: string)
    requires Less(a, b)
    ensures !Less(b, a)
  {
    if Less(b, a) {
      LessTransitive(a, b, a);
      LessIrreflexive(a);
    }
  }

  /** Two names that do not differ in order are the same name. */
  lemma {:induction false} LessTotal(a: string, b: string)
    ensures Less(a, b) || a == b || Less(b, a)
  {
    if a != "" && b != "" && a[0] == b[0] {
      LessTotal(a[1..], b[1..]);
      assert a == [a[0]] + a[1..] && b == [b[0]] + b[1..];
    }
  }

  /** `!Less(b, a)` is the weak order "a comes no later than b"; it is transitive. */
  lemma AtMostTransitive(a: string, b: string, c: string)
    requires !Less(b, a) && !Less(c, b)
    ensures !Less(c, a)
  {
    if Less(c, a) {
      LessTotal(a, b);
      LessTotal(b, c);
      if a == b || b == c {
      } else {
        LessTransitive(a, b, c);
        LessTransitive(a, c, a);
        LessIrreflexive(a);
      }
    }
  }
}
