/**
 Order-preserving filtering of sequences (JavaScript `Array.prototype.filter`)
 and the facts about it that the editing operations rely on.
 */
module Seqs {

  /** No element occurs twice. */
  predicate Distinct<T(==)>(s: seq<T>) {
    forall i, j :: 0 <= i < j < |s| ==> s[i] != s[j]
  }

  /** The set of elements of `s`. */
  function Elements<T>(s: seq<T>): set<T> {
    set i | 0 <= i < |s| :: s[i]
  }

  /** `r` can be obtained from `s` by deleting elements (greedy leftmost matching). */
  predicate IsSubsequence<T(==)>(r: seq<T>, s: seq<T>)
    decreases |s|
  {
    if r == [] then true
    else if s == [] then false
    else if r[0] == s[0] then IsSubsequence(r[1..], s[1..])
    else IsSubsequence(r, s[1..])
  }

  /** The elements of `s` that satisfy `keep`, in their original order. */
  function Filter<T(==,!new)>(s: seq<T>, keep: T -> bool): (r: seq<T>)
    ensures forall x :: x in r <==> x in s && keep(x)
    ensures forall x :: multiset(r)[x] == if keep(x) then multiset(s)[x] else 0
    ensures IsSubsequence(r, s)
    ensures |r| <= |s|
    decreases |s|
  {
    if s == [] then []
    else
      var rest := Filter(s[1..], keep);
      assert s == [s[0]] + s[1..];
      if keep(s[0]) then
        assert ([s[0]] + rest)[1..] == rest;
        [s[0]] + rest
      else
        SubsequenceSkip(rest, s[0], s[1..]);
        rest
  }

  /** Dropping the first element of `r` keeps it a subsequence. */
  lemma {:induction false} SubsequenceTail<T>(r: seq<T>, s: seq<T>)
    requires r != [] && IsSubsequence(r, s)
    ensures IsSubsequence(r[1..], s)
    decreases |s|, 1
  {
    if r[0] == s[0] {
      SubsequenceSkip(r[1..], s[0], s[1..]);
    } else {
      SubsequenceTail(r, s[1..]);
      SubsequenceSkip(r[1..], s[0], s[1..]);
    }
    assert [s[0]] + s[1..] == s;
  }

  /** Prepending an element to `s` keeps `r` a subsequence. */
  lemma {:induction false} SubsequenceSkip<T>(r: seq<T>, x: T, s: seq<T>)
    requires IsSubsequence(r, s)
    ensures IsSubsequence(r, [x] + s)
    decreases |s| + 1, 0
  {
    assert ([x] + s)[1..] == s;
    if r != [] && r[0] == x {
      SubsequenceTail(r, s);
    }
  }

  /** A subsequence never holds more copies of an element than the sequence. */
  lemma {:induction false} SubsequenceMultiset<T>(r: seq<T>, s: seq<T>)
    requires IsSubsequence(r, s)
    ensures multiset(r) <= multiset(s)
    decreases |s|
  {
    if r == [] {
    } else {
      assert s == [s[0]] + s[1..];
      if r[0] == s[0] {
        SubsequenceMultiset(r[1..], s[1..]);
        assert r == [r[0]] + r[1..];
      } else {
        SubsequenceMultiset(r, s[1..]);
      }
    }
  }

  /** Filtering keeps a sequence whole exactly when every element passes. */
  lemma {:induction false} FilterIdentity<T(!new)>(s: seq<T>, keep: T -> bool)
    ensures Filter(s, keep) == s <==> forall i :: 0 <= i < |s| ==> keep(s[i])
    decreases |s|
  {
    if s != [] {
      FilterIdentity(s[1..], keep);
      if Filter(s, keep) == s {
        forall i | 0 <= i < |s| ensures keep(s[i]) { assert s[i] in Filter(s, keep); }
      }
      if forall i :: 0 <= i < |s| ==> keep(s[i]) {
        assert forall i :: 0 <= i < |s[1..]| ==> keep(s[1..][i]);
      }
    }
  }

  /**
   `Filter` is the only order-preserving selection that keeps exactly the
   `keep` elements with their full multiplicity: any sequence with those three
   properties is `Filter(s, keep)`.
   */
  lemma {:induction false} FilterUnique<T(!new)>(r: seq<T>, s: seq<T>, keep: T -> bool)
    requires IsSubsequence(r, s)
    requires forall x :: x in r ==> keep(x)
    requires forall x :: keep(x) ==> multiset(r)[x] == multiset(s)[x]
    ensures r == Filter(s, keep)
    decreases |s|
  {
    if s == [] {
    } else {
      var x := s[0];
      assert s == [x] + s[1..];
      if r != [] && r[0] == x {
        assert r == [x] + r[1..];
        assert forall y :: keep(y) ==> multiset(r[1..])[y] == multiset(s[1..])[y] by {
          forall y | keep(y)
            ensures multiset(r[1..])[y] == multiset(s[1..])[y]
          {
            assert multiset(r)[y] == multiset([x])[y] + multiset(r[1..])[y];
            assert multiset(s)[y] == multiset([x])[y] + multiset(s[1..])[y];
          }
        }
        FilterUnique(r[1..], s[1..], keep);
      } else {
        assert IsSubsequence(r, s[1..]);
        if keep(x) {
          SubsequenceMultiset(r, s[1..]);
          assert false;
        }
        assert forall y :: keep(y) ==> multiset(r)[y] == multiset(s[1..])[y] by {
          forall y | keep(y)
            ensures multiset(r)[y] == multiset(s[1..])[y]
          {
            assert multiset(s)[y] == multiset([x])[y] + multiset(s[1..])[y];
            assert y != x;
          }
        }
        FilterUnique(r, s[1..], keep);
      }
    }
  }

  /** The index of the first occurrence of `x` in `s`, or `|s|` when `x` does not occur. */
  function FirstIndex<T(==)>(s: seq<T>, x: T): (i: nat)
    ensures i <= |s|
    ensures i < |s| <==> x in s
    ensures i < |s| ==> s[i] == x
    ensures forall j :: 0 <= j < i ==> s[j] != x
    decreases |s|
  {
    if s == [] then 0
    else if s[0] == x then 0
    else
      var i := FirstIndex(s[1..], x);
      assert forall j :: 1 <= j <= i ==> s[j] == s[1..][j - 1];
      1 + i
  }

  /** Appending an element moves no first occurrence; a new element's first occurrence is the appended one. */
  lemma FirstIndexAppend<T>(s: seq<T>, y: T, x: T)
    ensures x in s ==> FirstIndex(s + [y], x) == FirstIndex(s, x)
    ensures x !in s && x == y ==> FirstIndex(s + [y], x) == |s|
  {
    var i := FirstIndex(s, x);
    if x in s {
      assert (s + [y])[i] == x;
    } else if x == y {
      assert (s + [y])[|s|] == x;
    }
  }

  /** The elements of a non-empty sequence are those of its prefix and its last element. */
  lemma ElementsInit<T>(s: seq<T>)
    requires s != []
    ensures Elements(s) == Elements(s[..|s| - 1]) + {s[|s| - 1]}
  {
    var init := s[..|s| - 1];
    forall y | y in Elements(s) ensures y in Elements(init) + {s[|s| - 1]} {
      var i :| 0 <= i < |s| && s[i] == y;
      if i < |s| - 1 { assert init[i] == y; }
    }
    forall y | y in Elements(init) + {s[|s| - 1]} ensures y in Elements(s) {
      if y != s[|s| - 1] {
        var i :| 0 <= i < |init| && init[i] == y;
        assert s[i] == y;
      }
    }
  }

  /** A sequence has as many distinct elements as entries exactly when no element repeats. */
  lemma {:induction false} DistinctIffCard<T>(s: seq<T>)
    ensures |Elements(s)| <= |s|
    ensures Distinct(s) <==> |Elements(s)| == |s|
    decreases |s|
  {
    if s == [] {
      assert Elements(s) == {};
    } else {
      var init := s[..|s| - 1];
      var x := s[|s| - 1];
      DistinctIffCard(init);
      ElementsInit(s);
      if x in Elements(init) {
        var i :| 0 <= i < |init| && init[i] == x;
        assert s[i] == s[|s| - 1];
        assert !Distinct(s);
      } else {
        assert Distinct(s) <==> Distinct(init) by {
          if Distinct(init) {
            forall i, j | 0 <= i < j < |s| ensures s[i] != s[j] {
              if j < |s| - 1 {
                assert s[i] == init[i] && s[j] == init[j];
              } else {
                assert s[i] == init[i];
              }
            }
          }
          if Distinct(s) {
            forall i, j | 0 <= i < j < |init| ensures init[i] != init[j] {
              assert s[i] == init[i] && s[j] == init[j];
            }
          }
        }
      }
    }
  }
}
