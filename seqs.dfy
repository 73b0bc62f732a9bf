/** Order-preserving sequence helpers shared by the column, registry and grouping logic. */
module Seqs {

  /** `acc` followed by the elements of `xs` it does not hold yet, in order of first appearance
      (the key order of a Python dict filled from `acc` and then `xs`). */
  function AppendNew<T(==,!new)>(acc: seq<T>, xs: seq<T>): (r: seq<T>)
    ensures forall x :: x in r <==> x in acc || x in xs
    ensures |r| >= |acc| && r[..|acc|] == acc
    decreases |xs|
  {
    if xs == [] then acc
    else AppendNew(if xs[0] in acc then acc else acc + [xs[0]], xs[1..])
  }

  /** A position of an element the sequence holds. */
  lemma IndexOf<T>(s: seq<T>, x: T) returns (i: nat)
    requires x in s
    ensures i < |s| && s[i] == x
  {
    i :| 0 <= i < |s| && s[i] == x;
  }

  ghost predicate NoDup<T>(s: seq<T>)
  {
    forall i, j :: 0 <= i < j < |s| ==> s[i] != s[j]
  }

  /** Appending only unseen elements keeps a duplicate-free sequence duplicate-free. */
  lemma {:induction false} AppendNewNoDup<T(!new)>(acc: seq<T>, xs: seq<T>)
    requires NoDup(acc)
    ensures NoDup(AppendNew(acc, xs))
    decreases |xs|
  {
    if xs != [] {
      var next := if xs[0] in acc then acc else acc + [xs[0]];
      AppendNewNoDup(next, xs[1..]);
    }
  }

  /** When `xs` adds only unseen, distinct elements, they are all appended in order. */
  lemma {:induction false} AppendNewFresh<T(!new)>(acc: seq<T>, xs: seq<T>)
    requires NoDup(acc + xs)
    ensures AppendNew(acc, xs) == acc + xs
    decreases |xs|
  {
    if xs != [] {
      assert (acc + xs)[|acc|] == xs[0];
      assert xs[0] !in acc by {
        forall i | 0 <= i < |acc| ensures acc[i] != xs[0] {
          assert (acc + xs)[i] == acc[i];
        }
      }
      assert acc + [xs[0]] + xs[1..] == acc + xs;
      AppendNewFresh(acc + [xs[0]], xs[1..]);
    }
  }

  /** An element occurring at two positions occurs at least twice. */
  lemma TwoOccurrences<T>(s: seq<T>, i: nat, j: nat)
    requires i < j < |s| && s[i] == s[j]
    ensures multiset(s)[s[i]] >= 2
  {
    assert s == s[..i] + [s[i]] + s[i + 1..j] + [s[j]] + s[j + 1..];
  }

  /** A duplicate-free sequence holds each element at most once. */
  lemma {:induction false} NoDupCount<T>(s: seq<T>, x: T)
    requires NoDup(s)
    ensures multiset(s)[x] <= 1
  {
    if s != [] {
      assert s == [s[0]] + s[1..];
      assert NoDup(s[1..]) by {
        forall i, j | 0 <= i < j < |s[1..]| ensures s[1..][i] != s[1..][j] {
          assert s[1..][i] == s[i + 1] && s[1..][j] == s[j + 1];
        }
      }
      NoDupCount(s[1..], x);
      if x == s[0] {
        assert x !in s[1..];
      }
    }
  }
}
