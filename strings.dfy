/** Python's ordering of `str` values, and the sorted lists of distinct strings
    that `sorted(column.unique())` and `sorted(..., reverse=True)` produce. */
module Strings {

  /** `a` and `b` share their first `k` characters, and there `a` ends while `b` goes on,
      or `a` has the smaller code point. */
  ghost predicate SmallerAt(a: string, b: string, k: nat)
  {
    k <= |a| && k < |b| && a[..k] == b[..k] && (k == |a| || a[k] < b[k])
  }

  lemma SmallerAtShift(a: string, b: string)
    requires a != [] && b != []
    ensures (exists k: nat :: SmallerAt(a, b, k))
            <==> a[0] < b[0] || (a[0] == b[0] && exists k: nat :: SmallerAt(a[1..], b[1..], k))
  {
    if k: nat :| SmallerAt(a, b, k) {
      if k > 0 {
        assert a[0] == a[..k][0] == b[..k][0] == b[0];
        assert a[1..][..k - 1] == a[..k][1..] && b[1..][..k - 1] == b[..k][1..];
        assert SmallerAt(a[1..], b[1..], k - 1);
      }
    }
    if a[0] < b[0] {
      assert SmallerAt(a, b, 0);
    } else if a[0] == b[0] && exists k: nat :: SmallerAt(a[1..], b[1..], k) {
      var j: nat :| SmallerAt(a[1..], b[1..], j);
      assert a[..j + 1] == [a[0]] + a[1..][..j] && b[..j + 1] == [b[0]] + b[1..][..j];
      assert SmallerAt(a, b, j + 1);
    }
  }

  /** `a < b` on Python strings: lexicographic by code point, a proper prefix first. */
  predicate Less(a: string, b: string)
    ensures Less(a, b) <==> exists k: nat :: SmallerAt(a, b, k)
    decreases |a|
  {
    if a == [] then
      assert b != [] ==> SmallerAt(a, b, 0);
      b != []
    else if b == [] then false
    else
      SmallerAtShift(a, b);
      a[0] < b[0] || (a[0] == b[0] && Less(a[1..], b[1..]))
  }

  lemma {:induction false} LessIrreflexive(a: string)
    ensures !Less(a, a)
    decreases |a|
  {
    if a != [] {
      LessIrreflexive(a[1..]);
    }
  }

  lemma {:induction false} LessTransitive(a: string, b: string, c: string)
    requires Less(a, b) && Less(b, c)
    ensures Less(a, c)
    decreases |a|
  {
    if a != [] && a[0] == b[0] && b[0] == c[0] {
      LessTransitive(a[1..], b[1..], c[1..]);
    }
  }

  lemma {:induction false} LessTotal(a: string, b: string)
    ensures a == b || Less(a, b) || Less(b, a)
    decreases |a|
  {
    if a != [] && b != [] && a[0] == b[0] {
      LessTotal(a[1..], b[1..]);
      assert a == [a[0]] + a[1..] && b == [b[0]] + b[1..];
    }
  }

  /** Strictly increasing, hence free of duplicates. */
  predicate Ascending(s: seq<string>)
  {
    forall i, j :: 0 <= i < j < |s| ==> Less(s[i], s[j])
  }

  /** Strictly decreasing, hence free of duplicates. */
  predicate Descending(s: seq<string>)
  {
    forall i, j :: 0 <= i < j < |s| ==> Less(s[j], s[i])
  }

  lemma AscendingHasNoDuplicates(s: seq<string>)
    requires Ascending(s)
    ensures forall i, j :: 0 <= i < j < |s| ==> s[i] != s[j]
  {
    forall i, j | 0 <= i < j < |s|
      ensures s[i] != s[j]
    {
      LessIrreflexive(s[i]);
    }
  }

  lemma BelowFirstIsBelowAll(x: string, s: seq<string>)
    requires Ascending(s) && s != [] && Less(x, s[0])
    ensures forall y :: y in s ==> Less(x, y)
  {
    forall y | y in s
      ensures Less(x, y)
    {
      if y != s[0] {
        LessTransitive(x, s[0], y);
      }
    }
  }

  /** Inserts `x` into an ascending list unless it is already there. */
  function InsertAscending(x: string, s: seq<string>): (r: seq<string>)
    requires Ascending(s)
    ensures Ascending(r)
    ensures forall y :: y in r <==> y == x || y in s
  {
    if s == [] then [x]
    else if x == s[0] then s
    else if Less(x, s[0]) then
      BelowFirstIsBelowAll(x, s);
      [x] + s
    else
      LessTotal(x, s[0]);
      var rest := InsertAscending(x, s[1..]);
      assert forall y :: y in rest ==> Less(s[0], y);
      [s[0]] + rest
  }

  /** `sorted(set(v))`: the distinct values of `v` in ascending order. */
  function SortedUnique(v: seq<string>): (r: seq<string>)
    ensures Ascending(r)
    ensures forall y :: y in r <==> y in v
  {
    if v == [] then []
    else
      assert v == v[..|v| - 1] + [v[|v| - 1]];
      InsertAscending(v[|v| - 1], SortedUnique(v[..|v| - 1]))
  }

  function Reversed(s: seq<string>): (r: seq<string>)
    ensures |r| == |s|
    ensures forall i :: 0 <= i < |s| ==> r[i] == s[|s| - 1 - i]
  {
    if s == [] then [] else Reversed(s[1..]) + [s[0]]
  }

  lemma ReversedTwice(s: seq<string>)
    ensures Reversed(Reversed(s)) == s
  {
  }

  /** `sorted(set(v), reverse=True)`: the distinct values of `v` in descending order. */
  function SortedUniqueDescending(v: seq<string>): (r: seq<string>)
    ensures Descending(r)
    ensures forall y :: y in r <==> y in v
  {
    var up := SortedUnique(v);
    var down := Reversed(up);
    assert forall y :: y in down <==> y in up by {
      forall y | y in up ensures y in down {
        var i :| 0 <= i < |up| && up[i] == y;
        assert down[|up| - 1 - i] == y;
      }
    }
    down
  }

  /** A strictly sorted list is determined by its elements: Python's sort and
      this model's insertion produce the same list. */
  lemma {:induction false} AscendingUnique(a: seq<string>, b: seq<string>)
    requires Ascending(a) && Ascending(b)
    requires forall y :: y in a <==> y in b
    ensures a == b
    decreases |a|
  {
    if a != [] {
      assert a[0] in b;
    }
    if b != [] {
      assert b[0] in a;
    }
    if a != [] && b != [] {
      if a[0] != b[0] {
        var k :| 0 <= k < |b| && b[k] == a[0];
        var m :| 0 <= m < |a| && a[m] == b[0];
        assert Less(b[0], a[0]) && Less(a[0], b[0]);
        LessTransitive(a[0], b[0], a[0]);
        LessIrreflexive(a[0]);
      }
      AscendingHasNoDuplicates(a);
      AscendingHasNoDuplicates(b);
      forall y
        ensures y in a[1..] <==> y in b[1..]
      {
        if y in a[1..] {
          var i :| 0 <= i < |a| - 1 && a[1..][i] == y;
          assert a[i + 1] == y && y != a[0] && y in b;
          var j :| 0 <= j < |b| && b[j] == y;
          assert j != 0 && b[1..][j - 1] == y;
        }
        if y in b[1..] {
          var i :| 0 <= i < |b| - 1 && b[1..][i] == y;
          assert b[i + 1] == y && y != b[0] && y in a;
          var j :| 0 <= j < |a| && a[j] == y;
          assert j != 0 && a[1..][j - 1] == y;
        }
      }
      AscendingUnique(a[1..], b[1..]);
      assert a == [a[0]] + a[1..] && b == [b[0]] + b[1..];
    }
  }

  lemma DescendingUnique(a: seq<string>, b: seq<string>)
    requires Descending(a) && Descending(b)
    requires forall y :: y in a <==> y in b
    ensures a == b
  {
    var ra, rb := Reversed(a), Reversed(b);
    forall y ensures y in ra <==> y in a {
      if y in a {
        var i :| 0 <= i < |a| && a[i] == y;
        assert ra[|a| - 1 - i] == y;
      }
    }
    forall y ensures y in rb <==> y in b {
      if y in b {
        var i :| 0 <= i < |b| && b[i] == y;
        assert rb[|b| - 1 - i] == y;
      }
    }
    AscendingUnique(ra, rb);
    ReversedTwice(a);
    ReversedTwice(b);
  }
}
