/** The natural order of `java.lang.String` (`compareTo`) and the ascending
    listing of a set of strings, which is what sorting the entries of a map by
    their keys produces. */
module StringOrder {

  /** `a.compareTo(b) < 0`: the first differing character decides, and a
      proper prefix comes before the longer string. */
  predicate Below(a: string, b: string)
  {
    if a == [] then b != []
    else if b == [] then false
    else if a[0] != b[0] then a[0] < b[0]
    else Below(a[1..], b[1..])
  }

  lemma {:induction false} BelowIrreflexive(a: string)
    ensures !Below(a, a)
  {
    if a != [] {
      BelowIrreflexive(a[1..]);
    }
  }

  lemma {:induction false} BelowAsymmetric(a: string, b: string)
    requires Below(a, b)
    ensures !Below(b, a)
  {
    if a != [] && b != [] && a[0] == b[0] {
      BelowAsymmetric(a[1..], b[1..]);
    }
  }

  lemma {:induction false} BelowTransitive(a: string, b: string, c: string)
    requires Below(a, b) && Below(b, c)
    ensures Below(a, c)
  {
    if a != [] && a[0] == b[0] && b[0] == c[0] {
      BelowTransitive(a[1..], b[1..], c[1..]);
    }
  }

  /** Any two distinct strings are ordered one way or the other. */
  lemma {:induction false} BelowTotal(a: string, b: string)
    requires a != b
    ensures Below(a, b) || Below(b, a)
  {
    if a != [] && b != [] && a[0] == b[0] {
      assert a == [a[0]] + a[1..] && b == [b[0]] + b[1..];
      BelowTotal(a[1..], b[1..]);
    }
  }

  /** `x` is the first element of `s` in string order. */
  predicate IsLeast(x: string, s: set<string>)
  {
    x in s && forall y :: y in s ==> x == y || Below(x, y)
  }

  lemma {:induction false} LeastExists(s: set<string>)
    requires s != {}
    ensures exists x :: IsLeast(x, s)
    decreases |s|
  {
    var z :| z in s;
    if s == {z} {
      assert IsLeast(z, s);
    } else {
      var rest := s - {z};
      LeastExists(rest);
      var m :| IsLeast(m, rest);
      if Below(z, m) {
        forall y | y in s
          ensures z == y || Below(z, y)
        {
          if y != z && y != m {
            BelowTransitive(z, m, y);
          }
        }
        assert IsLeast(z, s);
      } else {
        BelowTotal(z, m);
        assert IsLeast(m, s);
      }
    }
  }

  lemma LeastUnique(x: string, y: string, s: set<string>)
    requires IsLeast(x, s) && IsLeast(y, s)
    ensures x == y
  {
    if x != y {
      BelowAsymmetric(x, y);
    }
  }

  ghost function Least(s: set<string>): (x: string)
    requires s != {}
    ensures IsLeast(x, s)
  {
    LeastExists(s);
    var x :| IsLeast(x, s);
    x
  }

  /** Every element comes before every later one. */
  ghost predicate Ascending(r: seq<string>)
  {
    forall i, j :: 0 <= i < j < |r| ==> Below(r[i], r[j])
  }

  /** The elements of `s` in ascending string order. */
  ghost function SortSet(s: set<string>): (r: seq<string>)
    ensures Ascending(r)
    ensures forall i :: 0 <= i < |r| ==> r[i] in s
    ensures |r| == |s|
    decreases |s|
  {
    if s == {} then []
    else
      var x := Least(s);
      [x] + SortSet(s - {x})
  }

  /** Every element of the set is listed. */
  lemma {:induction false} SortSetComplete(s: set<string>, x: string)
    requires x in s
    ensures x in SortSet(s)
    decreases |s|
  {
    var m := Least(s);
    if x != m {
      SortSetComplete(s - {m}, x);
    }
  }

  /** Two ascending listings of the same strings are the same listing. */
  lemma {:induction false} AscendingUnique(a: seq<string>, b: seq<string>)
    requires Ascending(a) && Ascending(b)
    requires forall x :: x in a <==> x in b
    ensures a == b
    decreases |a|
  {
    if a != [] {
      assert a[0] in b;
    }
    if b != [] {
      assert b[0] in a;
    }
    if a != [] && b != [] {
      if a[0] != b[0] {
        assert a[0] in b;
        var j :| 0 <= j < |b| && b[j] == a[0];
        assert b[0] in a;
        var i :| 0 <= i < |a| && a[i] == b[0];
        assert Below(b[0], a[0]) && Below(a[0], b[0]);
        BelowAsymmetric(a[0], b[0]);
      }
      forall x
        ensures x in a[1..] <==> x in b[1..]
      {
        if x in a[1..] {
          var i :| 1 <= i < |a| && a[i] == x;
          BelowIrreflexive(a[0]);
          assert x != b[0];
          assert x in a;
          var j :| 0 <= j < |b| && b[j] == x;
          assert b[1..][j - 1] == x;
        }
        if x in b[1..] {
          var i :| 1 <= i < |b| && b[i] == x;
          BelowIrreflexive(b[0]);
          assert x != a[0];
          assert x in b;
          var j :| 0 <= j < |a| && a[j] == x;
          assert a[1..][j - 1] == x;
        }
      }
      AscendingUnique(a[1..], b[1..]);
    }
  }

  /** Listing a set starts with its least element. */
  lemma SortSetStep(s: set<string>, x: string)
    requires IsLeast(x, s)
    ensures SortSet(s) == [x] + SortSet(s - {x})
  {
    LeastUnique(x, Least(s), s);
  }

  /** Lists the keys of a map in ascending order by repeatedly taking the
      least key not yet listed. */
  method SortedKeys(s: set<string>) returns (r: seq<string>)
    ensures r == SortSet(s)
  {
    r := [];
    var rest := s;
    while rest != {}
      invariant rest <= s
      invariant r + SortSet(rest) == SortSet(s)
      decreases |rest|
    {
      LeastExists(rest);
      var x :| IsLeast(x, rest);
      SortSetStep(rest, x);
      r := r + [x];
      rest := rest - {x};
    }
  }
}
