/** Facts about sequences used to state column orderings: subsequences,
    absence of duplicates, and listing the elements of a set. */
module Sequences {

  /** `xs` is obtained from `ys` by deleting elements, keeping the order of the rest. */
  predicate IsSubsequence<T(==)>(xs: seq<T>, ys: seq<T>)
    decreases |ys|
  {
    if xs == [] then true
    else if ys == [] then false
    else (xs[0] == ys[0] && IsSubsequence(xs[1..], ys[1..])) || IsSubsequence(xs, ys[1..])
  }

  /** No element occurs twice in `s`. */
  predicate NoDuplicates<T(==)>(s: seq<T>)
  {
    s == [] || (s[0] !in s[1..] && NoDuplicates(s[1..]))
  }

  /** The elements of `s`, as a set. */
  function Elements<T(!new)>(s: seq<T>): (r: set<T>)
    ensures forall x :: x in r <==> x in s
  {
    set x | x in s
  }

  /** Without duplicates, a sequence has as many distinct elements as entries. */
  lemma {:induction false} NoDuplicatesCardinality<T(!new)>(s: seq<T>)
    requires NoDuplicates(s)
    ensures |Elements(s)| == |s|
  {
    if s != [] {
      NoDuplicatesCardinality(s[1..]);
      assert Elements(s) == {s[0]} + Elements(s[1..]);
    }
  }

  /** Every element of a subsequence is an element of the whole. */
  lemma {:induction false} SubsequenceMembers<T>(xs: seq<T>, ys: seq<T>)
    requires IsSubsequence(xs, ys)
    ensures forall x :: x in xs ==> x in ys
    decreases |ys|
  {
    if xs != [] && ys != [] {
      assert ys == [ys[0]] + ys[1..];
      if xs[0] == ys[0] && IsSubsequence(xs[1..], ys[1..]) {
        SubsequenceMembers(xs[1..], ys[1..]);
        assert xs == [xs[0]] + xs[1..];
      } else {
        SubsequenceMembers(xs, ys[1..]);
      }
    }
  }

  /** Subsequence is transitive. */
  lemma {:induction false} SubsequenceTransitive<T>(xs: seq<T>, ys: seq<T>, zs: seq<T>)
    requires IsSubsequence(xs, ys) && IsSubsequence(ys, zs)
    ensures IsSubsequence(xs, zs)
    decreases |zs|
  {
    if xs != [] {
      assert ys != [] && zs != [];
      if ys[0] == zs[0] && IsSubsequence(ys[1..], zs[1..]) {
        if xs[0] == ys[0] && IsSubsequence(xs[1..], ys[1..]) {
          SubsequenceTransitive(xs[1..], ys[1..], zs[1..]);
        } else {
          SubsequenceTransitive(xs, ys[1..], zs[1..]);
        }
      } else {
        SubsequenceTransitive(xs, ys, zs[1..]);
      }
    }
  }

  /** A subsequence of a sequence without duplicates has none either. */
  lemma {:induction false} SubsequenceNoDuplicates<T>(xs: seq<T>, ys: seq<T>)
    requires IsSubsequence(xs, ys) && NoDuplicates(ys)
    ensures NoDuplicates(xs)
    decreases |ys|
  {
    if xs != [] {
      if xs[0] == ys[0] && IsSubsequence(xs[1..], ys[1..]) {
        SubsequenceNoDuplicates(xs[1..], ys[1..]);
        SubsequenceMembers(xs[1..], ys[1..]);
      } else {
        SubsequenceNoDuplicates(xs, ys[1..]);
      }
    }
  }

  /** When the head of `zs` is not in `xs`, `xs` is already a subsequence of the tail. */
  lemma SkipsHead<T>(xs: seq<T>, zs: seq<T>)
    requires zs != [] && IsSubsequence(xs, zs) && zs[0] !in xs
    ensures IsSubsequence(xs, zs[1..])
  {
    if xs != [] {
      assert xs[0] in xs;
    }
  }

  /** When the head of a duplicate-free `zs` is in `xs`, `xs` starts with it. */
  lemma TakesHead<T>(xs: seq<T>, zs: seq<T>)
    requires zs != [] && NoDuplicates(zs) && IsSubsequence(xs, zs) && zs[0] in xs
    ensures xs != [] && xs[0] == zs[0] && IsSubsequence(xs[1..], zs[1..])
  {
    if !(xs[0] == zs[0] && IsSubsequence(xs[1..], zs[1..])) {
      SubsequenceMembers(xs, zs[1..]);
      assert false;
    }
  }

  /** Over a sequence without duplicates, a subsequence is determined by its
      elements: two subsequences with the same members are equal, order included. */
  lemma {:induction false} SubsequenceDeterminedByMembers<T>(xs: seq<T>, ys: seq<T>, zs: seq<T>)
    requires NoDuplicates(zs)
    requires IsSubsequence(xs, zs) && IsSubsequence(ys, zs)
    requires forall x :: x in xs <==> x in ys
    ensures xs == ys
    decreases |zs|
  {
    if xs != [] {
      assert xs[0] in ys;
    }
    if ys != [] {
      assert ys[0] in xs;
    }
    if xs != [] && ys != [] {
      var z := zs[0];
      if z in xs {
        TakesHead(xs, zs);
        TakesHead(ys, zs);
        SubsequenceMembers(xs[1..], zs[1..]);
        SubsequenceMembers(ys[1..], zs[1..]);
        assert xs == [z] + xs[1..] && ys == [z] + ys[1..];
        forall x ensures x in xs[1..] <==> x in ys[1..] {
          assert z !in zs[1..];
          if x in xs[1..] {
            assert x in xs && x != z;
          }
          if x in ys[1..] {
            assert x in ys && x != z;
          }
        }
        SubsequenceDeterminedByMembers(xs[1..], ys[1..], zs[1..]);
      } else {
        SkipsHead(xs, zs);
        SkipsHead(ys, zs);
        SubsequenceDeterminedByMembers(xs, ys, zs[1..]);
      }
    }
  }

  /** Lists the elements of a set in an unspecified order, as Python's
      `list(set(...))` does: nothing but the members and their number is promised. */
  ghost function SetToList<T(!new)>(s: set<T>): (r: seq<T>)
    ensures |r| == |s| && NoDuplicates(r)
    ensures forall x :: x in r <==> x in s
  {
    if s == {} then []
    else
      var x :| x in s;
      [x] + SetToList(s - {x})
  }
}
