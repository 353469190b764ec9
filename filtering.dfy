/** The filtering list comprehension `[x for x in xs if f(x)]`, and what its length says. */
module Filtering {

  /** The elements of `s` that satisfy `f`, in their original order. */
  function Filter<T>(s: seq<T>, f: T -> bool): (r: seq<T>)
    ensures |r| <= |s|
    ensures forall x :: x in r ==> x in s && f(x)
  {
    if s == [] then [] else (if f(s[0]) then [s[0]] else []) + Filter(s[1..], f)
  }

  /** The comprehension is empty exactly when no element qualifies. */
  lemma {:induction false} FilterEmpty<T>(s: seq<T>, f: T -> bool)
    ensures Filter(s, f) == [] <==> forall i :: 0 <= i < |s| ==> !f(s[i])
  {
    if s != [] {
      FilterEmpty(s[1..], f);
      if Filter(s, f) == [] {
        forall i | 0 <= i < |s| ensures !f(s[i]) {
          if i > 0 { assert s[i] == s[1..][i - 1]; }
        }
      } else if !f(s[0]) {
        var k :| 0 <= k < |s[1..]| && f(s[1..][k]);
        assert s[k + 1] == s[1..][k];
      }
    }
  }

  /** The comprehension has two or more elements exactly when two distinct positions qualify. */
  lemma {:induction false} FilterSeveral<T>(s: seq<T>, f: T -> bool)
    ensures |Filter(s, f)| >= 2 <==> exists i, j :: 0 <= i < j < |s| && f(s[i]) && f(s[j])
  {
    if s != [] {
      var t := s[1..];
      FilterSeveral(t, f);
      FilterEmpty(t, f);
      if |Filter(s, f)| >= 2 {
        if f(s[0]) {
          var j :| 0 <= j < |t| && f(t[j]);
          assert f(s[0]) && f(s[j + 1]);
        } else {
          var i, j :| 0 <= i < j < |t| && f(t[i]) && f(t[j]);
          assert f(s[i + 1]) && f(s[j + 1]);
        }
      }
      if exists i, j :: 0 <= i < j < |s| && f(s[i]) && f(s[j]) {
        var i, j :| 0 <= i < j < |s| && f(s[i]) && f(s[j]);
        assert f(t[j - 1]);
        if i > 0 {
          assert f(t[i - 1]);
        }
      }
    }
  }

  /** The comprehension has exactly one element exactly when exactly one position qualifies,
      and then that element is the one at the qualifying position. */
  lemma FilterSingle<T>(s: seq<T>, f: T -> bool)
    ensures |Filter(s, f)| == 1 <==>
            exists i :: 0 <= i < |s| && f(s[i]) && forall j :: 0 <= j < |s| && j != i ==> !f(s[j])
    ensures |Filter(s, f)| == 1 ==> forall i :: 0 <= i < |s| && f(s[i]) ==> Filter(s, f) == [s[i]]
  {
    FilterEmpty(s, f);
    FilterSeveral(s, f);
    if |Filter(s, f)| == 1 {
      var i :| 0 <= i < |s| && f(s[i]);
      forall j | 0 <= j < |s| && j != i ensures !f(s[j]) {
        var a, b := if i < j then i else j, if i < j then j else i;
        assert !(f(s[a]) && f(s[b]));
      }
      forall k | 0 <= k < |s| && f(s[k]) ensures Filter(s, f) == [s[k]] {
        var x := Filter(s, f)[0];
        assert x in Filter(s, f);
        var m :| 0 <= m < |s| && s[m] == x;
        assert m == i && k == i;
      }
    }
    if exists i :: 0 <= i < |s| && f(s[i]) && forall j :: 0 <= j < |s| && j != i ==> !f(s[j]) {
      var i :| 0 <= i < |s| && f(s[i]) && forall j :: 0 <= j < |s| && j != i ==> !f(s[j]);
      assert Filter(s, f) != [];
      assert !exists a, b :: 0 <= a < b < |s| && f(s[a]) && f(s[b]);
    }
  }
}
