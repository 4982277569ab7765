/**
 * Lexicographic order on strings, as Python compares `str` values: character by
 * character on code points, a proper prefix coming first. Dafny's own `<` on
 * sequences means "proper prefix", so the order is defined here and shown to be a
 * total order before "greatest" and "sorted" are built on it.
 */
module LexOrder {

  /** `a <= b` on Python strings. */
  predicate LexLe(a: string, b: string)
    decreases |a|
  {
    if a == [] then true
    else if b == [] then false
    else if a[0] != b[0] then a[0] < b[0]
    else LexLe(a[1..], b[1..])
  }

  /** `a < b` on Python strings. */
  predicate LexLt(a: string, b: string) {
    LexLe(a, b) && a != b
  }

  lemma {:induction false} LexLeReflexive(a: string)
    ensures LexLe(a, a)
    decreases |a|
  {
    if a != [] {
      LexLeReflexive(a[1..]);
    }
  }

  lemma {:induction false} LexLeAntisymmetric(a: string, b: string)
    requires LexLe(a, b) && LexLe(b, a)
    ensures a == b
    decreases |a|
  {
    if a != [] && b != [] {
      LexLeAntisymmetric(a[1..], b[1..]);
      assert a == [a[0]] + a[1..] && b == [b[0]] + b[1..];
    }
  }

  lemma {:induction false} LexLeTransitive(a: string, b: string, c: string)
    requires LexLe(a, b) && LexLe(b, c)
    ensures LexLe(a, c)
    decreases |a|
  {
    if a != [] && b != [] && c != [] && a[0] == b[0] && b[0] == c[0] {
      LexLeTransitive(a[1..], b[1..], c[1..]);
    }
  }

  lemma {:induction false} LexLeTotal(a: string, b: string)
    ensures LexLe(a, b) || LexLe(b, a)
    decreases |a|
  {
    if a != [] && b != [] && a[0] == b[0] {
      LexLeTotal(a[1..], b[1..]);
    }
  }

  /** Two strings agreeing up to position `i` and differing there are ordered by that character. */
  lemma {:induction false} LexLeAtFirstDifference(a: string, b: string, i: nat)
    requires i < |a| && i < |b| && a[..i] == b[..i] && a[i] != b[i]
    ensures LexLe(a, b) <==> a[i] < b[i]
    decreases i
  {
    if i > 0 {
      assert a[0] == a[..i][0] == b[..i][0] == b[0];
      assert a[1..][..i - 1] == a[..i][1..] && b[1..][..i - 1] == b[..i][1..];
      LexLeAtFirstDifference(a[1..], b[1..], i - 1);
    }
  }

  /** `m` is a member of `s` and no member of `s` comes after it. */
  predicate IsGreatest(m: string, s: set<string>) {
    m in s && forall x :: x in s ==> LexLe(x, m)
  }

  lemma {:induction false} GreatestExists(s: set<string>)
    requires s != {}
    ensures exists m :: IsGreatest(m, s)
    decreases |s|
  {
    var x :| x in s;
    if s == {x} {
      LexLeReflexive(x);
      assert IsGreatest(x, s);
    } else {
      GreatestExists(s - {x});
      var m :| IsGreatest(m, s - {x});
      LexLeTotal(x, m);
      if LexLe(x, m) {
        assert IsGreatest(m, s);
      } else {
        forall y | y in s
          ensures LexLe(y, x)
        {
          if y == x {
            LexLeReflexive(x);
          } else {
            LexLeTransitive(y, m, x);
          }
        }
        assert IsGreatest(x, s);
      }
    }
  }

  lemma GreatestIsUnique(s: set<string>)
    ensures forall m1, m2 :: IsGreatest(m1, s) && IsGreatest(m2, s) ==> m1 == m2
  {
    forall m1, m2 | IsGreatest(m1, s) && IsGreatest(m2, s)
      ensures m1 == m2
    {
      LexLeAntisymmetric(m1, m2);
    }
  }

  /** The greatest member of a non-empty set of strings, which exists and is unique. */
  function Greatest(s: set<string>): (m: string)
    requires s != {}
    ensures IsGreatest(m, s)
  {
    GreatestExists(s);
    GreatestIsUnique(s);
    var m :| IsGreatest(m, s);
    m
  }

  /** Every element comes strictly before every later one. */
  predicate StrictlySorted(xs: seq<string>) {
    forall i, j :: 0 <= i < j < |xs| ==> LexLt(xs[i], xs[j])
  }

  /** Python's `sorted(s)` for a collection of distinct strings. */
  function SortedList(s: set<string>): (r: seq<string>)
    ensures |r| == |s|
    ensures forall x :: x in r <==> x in s
    ensures StrictlySorted(r)
    decreases |s|
  {
    if s == {} then []
    else
      var m := Greatest(s);
      var rest := SortedList(s - {m});
      assert forall i :: 0 <= i < |rest| ==> LexLt(rest[i], m) by {
        forall i | 0 <= i < |rest|
          ensures LexLt(rest[i], m)
        {
          assert rest[i] in rest;
        }
      }
      rest + [m]
  }

  /** The last element of a strictly sorted list is the greatest of its elements. */
  lemma LastOfStrictlySorted(xs: seq<string>, s: set<string>)
    requires xs != [] && StrictlySorted(xs)
    requires forall x :: x in xs <==> x in s
    ensures IsGreatest(xs[|xs| - 1], s)
  {
    var n := |xs| - 1;
    forall x | x in s
      ensures LexLe(x, xs[n])
    {
      var i :| 0 <= i < |xs| && xs[i] == x;
      if i < n {
        assert LexLt(xs[i], xs[n]);
      } else {
        LexLeReflexive(x);
      }
    }
  }

  /** Dropping the last element of a strictly sorted list leaves the other elements. */
  lemma FrontOfStrictlySorted(xs: seq<string>, s: set<string>)
    requires xs != [] && StrictlySorted(xs)
    requires forall x :: x in xs <==> x in s
    ensures StrictlySorted(xs[..|xs| - 1])
    ensures forall x :: x in xs[..|xs| - 1] <==> x in s && x != xs[|xs| - 1]
  {
    var n := |xs| - 1;
    var front := xs[..n];
    forall x
      ensures x in front <==> x in s && x != xs[n]
    {
      if x in front {
        var i :| 0 <= i < n && front[i] == x;
        assert LexLt(xs[i], xs[n]);
      }
      if x in s && x != xs[n] {
        var i :| 0 <= i < |xs| && xs[i] == x;
        assert front[i] == x;
      }
    }
  }

  /** The sorted list of a non-empty set ends with its greatest member. */
  lemma SortedListUnfold(s: set<string>)
    requires s != {}
    ensures SortedList(s) == SortedList(s - {Greatest(s)}) + [Greatest(s)]
  {
  }

  /** The sorted list is the ONLY strictly ascending arrangement of the set. */
  lemma {:induction false} SortedListUnique(xs: seq<string>, s: set<string>)
    requires StrictlySorted(xs)
    requires forall x :: x in xs <==> x in s
    ensures xs == SortedList(s)
    decreases |xs|
  {
    if xs == [] {
      assert s == {};
    } else {
      var n := |xs| - 1;
      var m := xs[n];
      assert m in s;
      var g := Greatest(s);
      LastOfStrictlySorted(xs, s);
      LexLeAntisymmetric(m, g);
      FrontOfStrictlySorted(xs, s);
      assert forall x :: x in xs[..n] <==> x in s - {g};
      SortedListUnique(xs[..n], s - {g});
      SortedListUnfold(s);
      assert xs == xs[..n] + [m];
    }
  }

  /** `sorted(s)[-1]` is the greatest member. */
  lemma LastOfSortedIsGreatest(s: set<string>)
    requires s != {}
    ensures IsGreatest(SortedList(s)[|s| - 1], s)
  {
    LastOfStrictlySorted(SortedList(s), s);
  }

  /** In a strictly sorted list, the elements after the one at `i` are exactly those strictly greater. */
  lemma StrictlySortedAfter(xs: seq<string>, i: nat, x: string)
    requires StrictlySorted(xs) && i < |xs| && x in xs
    ensures LexLt(xs[i], x) <==> exists j :: i < j < |xs| && xs[j] == x
  {
    var j :| 0 <= j < |xs| && xs[j] == x;
    if LexLt(xs[i], x) && j < i {
      assert LexLt(xs[j], xs[i]);
      LexLeAntisymmetric(xs[i], xs[j]);
    }
    if j > i {
      assert LexLt(xs[i], xs[j]);
    }
  }
}
