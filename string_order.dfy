/**
 * Python compares `str` values lexicographically by code point, and `sorted`
 * and `min` rely on that order. This module defines the order on Dafny
 * strings, proves it a strict total order, and defines the sorted listing of
 * a finite set of strings (what `sorted(some_set)` returns).
 */
module StringOrder {

  /** `a < b` on Python strings: a proper prefix is smaller, otherwise the
      first differing code point decides. */
  predicate Less(a: string, b: string)
    decreases |a|
  {
    if |a| == 0 then |b| > 0
    else if |b| == 0 then false
    else if a[0] != b[0] then a[0] < b[0]
    else Less(a[1..], b[1..])
  }

  /** `a <= b` on Python strings. */
  predicate LessOrEqual(a: string, b: string) {
    a == b || Less(a, b)
  }

  /** Python's `min(a, b)`: the first argument unless the second is smaller. */
  function Min(a: string, b: string): (m: string)
    ensures m == a || m == b
    ensures LessOrEqual(m, a) && LessOrEqual(m, b)
  {
    Total(a, b);
    if Less(b, a) then b else a
  }

  lemma {:induction false} Irreflexive(a: string)
    ensures !Less(a, a)
    decreases |a|
  {
    if |a| > 0 {
      assert a[1..] == a[1..];
      Irreflexive(a[1..]);
    }
  }

  lemma {:induction false} Asymmetric(a: string, b: string)
    ensures Less(a, b) ==> !Less(b, a)
    decreases |a|
  {
    if |a| > 0 && |b| > 0 && a[0] == b[0] {
      Asymmetric(a[1..], b[1..]);
    }
  }

  lemma {:induction false} Transitive(a: string, b: string, c: string)
    requires Less(a, b) && Less(b, c)
    ensures Less(a, c)
    decreases |a|
  {
    if |a| > 0 && a[0] == b[0] && b[0] == c[0] {
      Transitive(a[1..], b[1..], c[1..]);
    }
  }

  /** Trichotomy: any two strings are equal or ordered one way. */
  lemma {:induction false} Total(a: string, b: string)
    ensures a == b || Less(a, b) || Less(b, a)
    decreases |a|
  {
    if |a| > 0 && |b| > 0 && a[0] == b[0] {
      Total(a[1..], b[1..]);
      if a[1..] == b[1..] {
        assert a == [a[0]] + a[1..] && b == [b[0]] + b[1..];
      }
    }
  }

  lemma AntisymmetricAll()
    ensures forall a, b :: LessOrEqual(a, b) && LessOrEqual(b, a) ==> a == b
  {
    forall a, b | LessOrEqual(a, b) && LessOrEqual(b, a) ensures a == b {
      Asymmetric(a, b);
    }
  }

  /** `m` is the least element of `s`. */
  predicate IsLeast(m: string, s: set<string>) {
    m in s && forall y :: y in s ==> LessOrEqual(m, y)
  }

  lemma {:induction false} LeastExists(s: set<string>)
    requires s != {}
    ensures exists m :: IsLeast(m, s)
    decreases |s|
  {
    var x :| x in s;
    if s == {x} {
      assert IsLeast(x, s);
    } else {
      LeastExists(s - {x});
      var m :| IsLeast(m, s - {x});
      Total(m, x);
      if Less(x, m) {
        forall y | y in s ensures LessOrEqual(x, y) {
          if y != x && y != m {
            assert y in s - {x};
            Transitive(x, m, y);
          }
        }
        assert IsLeast(x, s);
      } else {
        assert IsLeast(m, s);
      }
    }
  }

  /** Strictly increasing, hence also free of duplicates. */
  predicate Increasing(s: seq<string>) {
    forall i, j :: 0 <= i < j < |s| ==> Less(s[i], s[j])
  }

  /** In a strictly increasing sequence, order of position and order of
      value agree, so no value occurs twice. */
  lemma IncreasingRanks(s: seq<string>)
    requires Increasing(s)
    ensures forall i, j :: 0 <= i < |s| && 0 <= j < |s| ==> (Less(s[i], s[j]) <==> i < j)
    ensures forall i, j :: 0 <= i < |s| && 0 <= j < |s| && s[i] == s[j] ==> i == j
  {
    forall i, j | 0 <= i < |s| && 0 <= j < |s|
      ensures Less(s[i], s[j]) <==> i < j
    {
      Irreflexive(s[i]);
      Asymmetric(s[i], s[j]);
    }
  }

  /** The least element of a non-empty set, what `min(s)` returns. */
  function Least(s: set<string>): (m: string)
    requires s != {}
    ensures IsLeast(m, s)
  {
    LeastExists(s);
    AntisymmetricAll();
    var m :| IsLeast(m, s);
    m
  }

  /** Python's `sorted(s)` for a set of strings. */
  function SortedSet(s: set<string>): (r: seq<string>)
    ensures |r| == |s|
    ensures forall y :: y in r <==> y in s
    ensures Increasing(r)
    decreases |s|
  {
    if s == {} then []
    else
      var m := Least(s);
      var rest := SortedSet(s - {m});
      assert forall y :: y in rest ==> Less(m, y);
      [m] + rest
  }

  /** Two strictly increasing sequences with the same elements are equal:
      `SortedSet` is the only sorted listing of a set. */
  lemma {:induction false} IncreasingUnique(a: seq<string>, b: seq<string>)
    requires Increasing(a) && Increasing(b)
    requires forall y :: y in a <==> y in b
    ensures a == b
    decreases |a|
  {
    if a != [] {
      assert a[0] in a;
    }
    if b != [] {
      assert b[0] in b;
    }
    if a != [] && b != [] {
      IncreasingRanks(a);
      IncreasingRanks(b);
      assert a[0] in b && b[0] in a;
      Asymmetric(a[0], b[0]);
      assert a[0] == b[0];
      forall y ensures y in a[1..] <==> y in b[1..] {
        if y in a[1..] {
          var i :| 1 <= i < |a| && a[i] == y;
          assert y in a;
          var j :| 0 <= j < |b| && b[j] == y;
          assert j != 0;
          assert b[1..][j - 1] == y;
        }
        if y in b[1..] {
          var j :| 1 <= j < |b| && b[j] == y;
          assert y in b;
          var i :| 0 <= i < |a| && a[i] == y;
          assert i != 0;
          assert a[1..][i - 1] == y;
        }
      }
      IncreasingUnique(a[1..], b[1..]);
      assert a == [a[0]] + a[1..] && b == [b[0]] + b[1..];
    }
  }
}
