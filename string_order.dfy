/**
 * Python's ordering of `str` values (code point by code point, a proper prefix
 * first), `sorted(..., reverse=True)` over it, and the greatest element of a set.
 * Snapshot names are compared this way when the backup manager looks for the
 * latest snapshot.
 */
module StringOrder {

  /** `a < b` on Python strings. */
  predicate Less(a: string, b: string)
    decreases |a|
  {
    |b| > 0 && (|a| == 0 || a[0] < b[0] || (a[0] == b[0] && Less(a[1..], b[1..])))
  }

  lemma {:induction false} LessIrreflexive(a: string)
    ensures !Less(a, a)
    decreases |a|
  {
    if |a| > 0 {
      LessIrreflexive(a[1..]);
    }
  }

  lemma {:induction false} LessTransitive(a: string, b: string, c: string)
    requires Less(a, b) && Less(b, c)
    ensures Less(a, c)
    decreases |a|
  {
    if |a| > 0 && a[0] == b[0] && b[0] == c[0] {
      LessTransitive(a[1..], b[1..], c[1..]);
    }
  }

  lemma {:induction false} LessTotal(a: string, b: string)
    requires a != b
    ensures Less(a, b) || Less(b, a)
    decreases |a|
  {
    if |a| > 0 && |b| > 0 && a[0] == b[0] {
      assert a == [a[0]] + a[1..] && b == [b[0]] + b[1..];
      LessTotal(a[1..], b[1..]);
    }
  }

  lemma {:induction false} LessAsymmetric(a: string, b: string)
    requires Less(a, b)
    ensures !Less(b, a)
  {
    if Less(b, a) {
      LessTransitive(a, b, a);
      LessIrreflexive(a);
    }
  }

  /** `a >= b`, spelled with `Less` only. */
  lemma NotLessIsAtLeast(a: string, b: string)
    requires !Less(a, b)
    ensures a == b || Less(b, a)
  {
    if a != b {
      LessTotal(a, b);
    }
  }

  /** The order `sorted(..., reverse=True)` produces: no element is smaller than a later one. */
  ghost predicate Descending(s: seq<string>)
  {
    forall i, j :: 0 <= i < j < |s| ==> !Less(s[i], s[j])
  }

  /** The head of a descending list is at least every element of it. */
  lemma DescendingHeadIsGreatest(s: seq<string>)
    requires Descending(s) && |s| > 0
    ensures forall m :: m in s ==> !Less(s[0], m)
  {
    forall m | m in s
      ensures !Less(s[0], m)
    {
      var j :| 0 <= j < |s| && s[j] == m;
      if j == 0 {
        LessIrreflexive(m);
      }
    }
  }

  /** An element that is at least every element of a descending list may be put in front of it. */
  lemma PrependDescending(h: string, t: seq<string>)
    requires Descending(t)
    requires forall y :: y in t ==> !Less(h, y)
    ensures Descending([h] + t)
  {
    forall i, j | 0 <= i < j < |[h] + t|
      ensures !Less(([h] + t)[i], ([h] + t)[j])
    {
      if i > 0 {
        assert ([h] + t)[i] == t[i - 1] && ([h] + t)[j] == t[j - 1];
      } else {
        assert ([h] + t)[j] in t;
      }
    }
  }

  /** Something strictly greater than the head of a descending list is greater than all of it. */
  lemma AboveHeadAboveAll(x: string, s: seq<string>)
    requires Descending(s) && |s| > 0 && Less(s[0], x)
    ensures forall y :: y in s ==> !Less(x, y)
  {
    forall y | y in s
      ensures !Less(x, y)
    {
      var j :| 0 <= j < |s| && s[j] == y;
      if j > 0 {
        NotLessIsAtLeast(s[0], y);
      }
      if y != s[0] {
        LessTransitive(y, s[0], x);
      }
      LessAsymmetric(y, x);
    }
  }

  /** One step of the sort: put `x` into a descending list. */
  function Insert(x: string, s: seq<string>): (r: seq<string>)
    requires Descending(s)
    ensures multiset(r) == multiset(s) + multiset{x}
    ensures Descending(r)
  {
    if s == [] then
      [x]
    else if Less(s[0], x) then
      AboveHeadAboveAll(x, s);
      PrependDescending(x, s);
      [x] + s
    else
      var t := Insert(x, s[1..]);
      assert s == [s[0]] + s[1..];
      assert forall y :: y in t ==> !Less(s[0], y) by {
        forall y | y in t
          ensures !Less(s[0], y)
        {
          assert y in multiset(t);
          if y != x {
            assert y in s[1..];
          }
        }
      }
      PrependDescending(s[0], t);
      [s[0]] + t
  }

  /** `sorted(s, reverse=True)`: a descending permutation of `s`. */
  function SortDescending(s: seq<string>): (r: seq<string>)
    ensures multiset(r) == multiset(s)
    ensures Descending(r)
  {
    if s == [] then
      []
    else
      assert s == [s[0]] + s[1..];
      Insert(s[0], SortDescending(s[1..]))
  }

  /** `n` is the greatest element of `s`. */
  ghost predicate IsGreatest(s: set<string>, n: string)
  {
    n in s && forall m :: m in s ==> !Less(n, m)
  }

  /** A set of strings has at most one greatest element. */
  lemma GreatestUnique(s: set<string>, a: string, b: string)
    requires IsGreatest(s, a) && IsGreatest(s, b)
    ensures a == b
  {
    if a != b {
      LessTotal(a, b);
    }
  }

  /** Every finite non-empty set of strings has a greatest element. */
  lemma {:induction false} GreatestExists(s: set<string>)
    requires s != {}
    ensures exists n :: IsGreatest(s, n)
    decreases |s|
  {
    var x :| x in s;
    LessIrreflexive(x);
    if s == {x} {
      assert IsGreatest(s, x);
    } else {
      var rest := s - {x};
      GreatestExists(rest);
      var m :| IsGreatest(rest, m);
      if Less(m, x) {
        forall y | y in s
          ensures !Less(x, y)
        {
          if y != x {
            NotLessIsAtLeast(m, y);
            if y != m {
              LessTransitive(y, m, x);
            }
            LessAsymmetric(y, x);
          }
        }
        assert IsGreatest(s, x);
      } else {
        assert IsGreatest(s, m);
      }
    }
  }
}
