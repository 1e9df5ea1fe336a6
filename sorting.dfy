/** The two orderings the source sorts by: Python's code-point order on strings
    (`sorted` of socket slugs) and numeric order on reals (numpy's percentile and
    sklearn's threshold ordering). Both sorts are insertion sorts, specified by
    "sorted" and "a permutation of the input". */
module Sorting {

  /** Python's `<=` on `str`: lexicographic by code point, a prefix comes first. */
  predicate LexLe(a: string, b: string)
  {
    |a| == 0 || (|b| > 0 && (a[0] < b[0] || (a[0] == b[0] && LexLe(a[1..], b[1..]))))
  }

  lemma {:induction false} LexLeTotal(a: string, b: string)
    ensures LexLe(a, b) || LexLe(b, a)
  {
    if |a| > 0 && |b| > 0 && a[0] == b[0] {
      LexLeTotal(a[1..], b[1..]);
    }
  }

  lemma {:induction false} LexLeTransitive(a: string, b: string, c: string)
    requires LexLe(a, b) && LexLe(b, c)
    ensures LexLe(a, c)
  {
    if |a| > 0 && a[0] == b[0] && b[0] == c[0] {
      LexLeTransitive(a[1..], b[1..], c[1..]);
    }
  }

  ghost predicate StringsSorted(s: seq<string>)
  {
    forall i, j :: 0 <= i < j < |s| ==> LexLe(s[i], s[j])
  }

  function InsertString(x: string, s: seq<string>): (r: seq<string>)
    requires StringsSorted(s)
    ensures StringsSorted(r) && multiset(r) == multiset(s) + multiset{x}
  {
    if |s| == 0 then [x]
    else if LexLe(x, s[0]) then
      assert forall j :: 0 <= j < |s| ==> LexLe(x, s[j]) by {
        forall j | 0 <= j < |s| ensures LexLe(x, s[j]) {
          if j > 0 { LexLeTransitive(x, s[0], s[j]); }
        }
      }
      [x] + s
    else
      LexLeTotal(x, s[0]);
      var rest := InsertString(x, s[1..]);
      assert s == [s[0]] + s[1..];
      InsertedAbove(s[0], x, s[1..], rest);
      [s[0]] + rest
  }

  /** A lower bound of `x` and of every entry of `t` bounds every entry of a
      permutation of `t` with `x` added. */
  lemma InsertedAbove(b: string, x: string, t: seq<string>, r: seq<string>)
    requires LexLe(b, x) && forall j :: 0 <= j < |t| ==> LexLe(b, t[j])
    requires multiset(r) == multiset(t) + multiset{x}
    ensures forall j :: 0 <= j < |r| ==> LexLe(b, r[j])
  {
    forall j | 0 <= j < |r| ensures LexLe(b, r[j]) {
      assert r[j] in multiset(r);
      if r[j] != x {
        assert r[j] in multiset(t);
        var k :| 0 <= k < |t| && t[k] == r[j];
      }
    }
  }

  /** Python's `sorted` on a list of strings. */
  function SortStrings(s: seq<string>): (r: seq<string>)
    ensures StringsSorted(r) && multiset(r) == multiset(s)
  {
    if |s| == 0 then []
    else
      assert s == [s[0]] + s[1..];
      InsertString(s[0], SortStrings(s[1..]))
  }

  ghost predicate RealsSorted(s: seq<real>)
  {
    forall i, j :: 0 <= i < j < |s| ==> s[i] <= s[j]
  }

  function InsertReal(x: real, s: seq<real>): (r: seq<real>)
    requires RealsSorted(s)
    ensures |r| == |s| + 1
    ensures RealsSorted(r) && multiset(r) == multiset(s) + multiset{x}
  {
    if |s| == 0 then [x]
    else if x <= s[0] then [x] + s
    else
      var rest := InsertReal(x, s[1..]);
      assert s == [s[0]] + s[1..];
      RealInsertedAbove(s[0], x, s[1..], rest);
      [s[0]] + rest
  }

  lemma RealInsertedAbove(b: real, x: real, t: seq<real>, r: seq<real>)
    requires b <= x && forall j :: 0 <= j < |t| ==> b <= t[j]
    requires multiset(r) == multiset(t) + multiset{x}
    ensures forall j :: 0 <= j < |r| ==> b <= r[j]
  {
    forall j | 0 <= j < |r| ensures b <= r[j] {
      assert r[j] in multiset(r);
      if r[j] != x {
        assert r[j] in multiset(t);
        var k :| 0 <= k < |t| && t[k] == r[j];
      }
    }
  }

  /** Ascending numeric sort with duplicates kept (`np.sort`). */
  function SortReals(s: seq<real>): (r: seq<real>)
    ensures |r| == |s|
    ensures RealsSorted(r) && multiset(r) == multiset(s)
  {
    if |s| == 0 then []
    else
      assert s == [s[0]] + s[1..];
      InsertReal(s[0], SortReals(s[1..]))
  }

  ghost predicate StrictlyIncreasing(s: seq<real>)
  {
    forall i, j :: 0 <= i < j < |s| ==> s[i] < s[j]
  }

  /** Removes repeated values from a sorted sequence (`np.unique` on sorted data). */
  function Dedup(s: seq<real>): (r: seq<real>)
    requires RealsSorted(s)
    ensures StrictlyIncreasing(r)
    ensures forall x :: x in r <==> x in s
  {
    if |s| <= 1 then s
    else
      var rest := Dedup(s[1..]);
      assert forall x :: x in s <==> x == s[0] || x in s[1..] by {
        assert s == [s[0]] + s[1..];
      }
      if s[0] == s[1] then rest
      else
        assert forall j :: 0 <= j < |rest| ==> s[0] < rest[j] by {
          forall j | 0 <= j < |rest| ensures s[0] < rest[j] {
            assert rest[j] in s[1..];
          }
        }
        [s[0]] + rest
  }

  /** The distinct values of `s` in ascending order. */
  function DistinctAscending(s: seq<real>): (r: seq<real>)
    ensures StrictlyIncreasing(r)
    ensures forall x :: x in r <==> x in s
  {
    var sorted := SortReals(s);
    assert forall x :: x in sorted <==> x in multiset(s);
    Dedup(sorted)
  }
}
