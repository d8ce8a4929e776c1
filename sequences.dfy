/** Order-preserving subsequences and descending order, shared by the
    filters of the library views and the statistics page. */
module Sequences {

  /** `r` is obtained from `s` by deleting elements, keeping the rest in order. */
  predicate IsSubsequence<T(==)>(r: seq<T>, s: seq<T>)
    decreases |s|
  {
    r == [] ||
    (s != [] &&
     ((r[0] == s[0] && IsSubsequence(r[1..], s[1..])) || IsSubsequence(r, s[1..])))
  }

  /** Every element of `s` has a key no smaller than the keys of the elements after it. */
  predicate Descending<T>(s: seq<T>, key: T -> int) {
    forall i, j :: 0 <= i < j < |s| ==> key(s[i]) >= key(s[j])
  }

  lemma {:induction false} SubsequenceMembers<T>(r: seq<T>, s: seq<T>)
    requires IsSubsequence(r, s)
    ensures forall x :: x in r ==> x in s
  {
    if r != [] {
      if r[0] == s[0] && IsSubsequence(r[1..], s[1..]) {
        SubsequenceMembers(r[1..], s[1..]);
        forall x | x in r ensures x in s {
          if x != r[0] {
            assert x in r[1..];
          }
        }
      } else {
        SubsequenceMembers(r, s[1..]);
      }
    }
  }

  /** Deleting elements from a list sorted by a key leaves it sorted by that key. */
  lemma {:induction false} SubsequenceDescending<T>(r: seq<T>, s: seq<T>, key: T -> int)
    requires IsSubsequence(r, s)
    requires Descending(s, key)
    ensures Descending(r, key)
  {
    if r != [] {
      assert Descending(s[1..], key) by {
        forall i, j | 0 <= i < j < |s[1..]| ensures key(s[1..][i]) >= key(s[1..][j]) {
          assert s[1..][i] == s[i + 1] && s[1..][j] == s[j + 1];
        }
      }
      if r[0] == s[0] && IsSubsequence(r[1..], s[1..]) {
        SubsequenceDescending(r[1..], s[1..], key);
        SubsequenceMembers(r[1..], s[1..]);
        forall i, j | 0 <= i < j < |r| ensures key(r[i]) >= key(r[j]) {
          if i == 0 {
            assert r[j] == r[1..][j - 1];
            assert r[j] in s[1..];
            var k :| 0 <= k < |s[1..]| && s[1..][k] == r[j];
            assert s[k + 1] == r[j];
          } else {
            assert r[i] == r[1..][i - 1] && r[j] == r[1..][j - 1];
          }
        }
      } else {
        SubsequenceDescending(r, s[1..], key);
      }
    }
  }

  /** `xs.filter(keep)`: the elements `keep` accepts, in their order. */
  function Filter<T(==)>(xs: seq<T>, keep: T -> bool): (r: seq<T>)
    ensures IsSubsequence(r, xs)
    ensures |r| <= |xs|
    decreases |xs|
  {
    if xs == [] then []
    else
      var rest := Filter(xs[1..], keep);
      if keep(xs[0]) then
        var r := [xs[0]] + rest;
        assert r[1..] == rest;
        r
      else rest
  }

  /** The filter keeps exactly the elements `keep` accepts. */
  lemma {:induction false} FilterMembers<T>(xs: seq<T>, keep: T -> bool)
    ensures forall i :: 0 <= i < |Filter(xs, keep)| ==> Filter(xs, keep)[i] in xs && keep(Filter(xs, keep)[i])
    ensures forall i :: 0 <= i < |xs| && keep(xs[i]) ==> xs[i] in Filter(xs, keep)
    decreases |xs|
  {
    if xs != [] {
      FilterMembers(xs[1..], keep);
      var r := Filter(xs, keep);
      var rest := Filter(xs[1..], keep);
      forall i | 0 <= i < |r| ensures r[i] in xs && keep(r[i]) {
        if keep(xs[0]) && i > 0 {
          assert r[i] == rest[i - 1];
        }
        if !keep(xs[0]) || i > 0 {
          assert r[i] in xs[1..];
        }
      }
      forall i | 0 <= i < |xs| && keep(xs[i]) ensures xs[i] in r {
        if i > 0 {
          assert xs[i] == xs[1..][i - 1];
        }
      }
    }
  }

  /** Filtering counts the first element when it is kept, then the rest. */
  lemma FilterFirstCount<T>(xs: seq<T>, keep: T -> bool)
    requires xs != []
    ensures |Filter(xs, keep)| == (if keep(xs[0]) then 1 else 0) + |Filter(xs[1..], keep)|
  {
  }

  /** Filtering a list one element longer appends that element when it is kept:
      the step of a loop that pushes the accepted elements. */
  lemma {:induction false} FilterSnoc<T>(xs: seq<T>, x: T, keep: T -> bool)
    ensures Filter(xs + [x], keep) == Filter(xs, keep) + (if keep(x) then [x] else [])
    decreases |xs|
  {
    if xs == [] {
      assert [x][1..] == [];
    } else {
      assert (xs + [x])[1..] == xs[1..] + [x];
      FilterSnoc(xs[1..], x, keep);
    }
  }
}
