/** Sequence helpers shared by the list updates of the application. */
module Seqs {

  /** `s.filter(y => y !== x)`: every element equal to `x` dropped, the rest kept in order. */
  function RemoveAll<T(==)>(s: seq<T>, x: T): (r: seq<T>)
    ensures x !in r
    ensures |r| <= |s|
    ensures forall i :: 0 <= i < |r| ==> r[i] in s && r[i] != x
    ensures forall i :: 0 <= i < |s| && s[i] != x ==> s[i] in r
  {
    if s == [] then []
    else if s[0] == x then RemoveAll(s[1..], x)
    else [s[0]] + RemoveAll(s[1..], x)
  }

  /** No element occurs twice. */
  predicate NoDuplicates<T(==)>(s: seq<T>)
  {
    forall i, j :: 0 <= i < j < |s| ==> s[i] != s[j]
  }

  /** `sub` is `s` with some elements left out, the kept ones in their original order. */
  predicate IsSubsequence<T(==)>(sub: seq<T>, s: seq<T>)
    decreases |s|
  {
    if sub == [] then true
    else if s == [] then false
    else if sub[0] == s[0] then IsSubsequence(sub[1..], s[1..])
    else IsSubsequence(sub, s[1..])
  }

  /** Removing an absent element changes nothing. */
  lemma {:induction false} RemoveAllAbsent<T>(s: seq<T>, x: T)
    ensures x !in s ==> RemoveAll(s, x) == s
  {
    if s != [] && x !in s {
      assert s == [s[0]] + s[1..];
      RemoveAllAbsent(s[1..], x);
    }
  }

  /** What `RemoveAll` keeps is a subsequence of its input: the order of the survivors is kept. */
  lemma {:induction false} RemoveAllIsSubsequence<T>(s: seq<T>, x: T)
    ensures IsSubsequence(RemoveAll(s, x), s)
  {
    if s != [] {
      RemoveAllIsSubsequence(s[1..], x);
      if s[0] != x {
        assert ([s[0]] + RemoveAll(s[1..], x))[1..] == RemoveAll(s[1..], x);
      } else {
        SubsequenceOfTail(RemoveAll(s[1..], x), s);
      }
    }
  }

  /** A subsequence of the tail is a subsequence of the whole. */
  lemma {:induction false} SubsequenceOfTail<T>(sub: seq<T>, s: seq<T>)
    requires s != []
    requires IsSubsequence(sub, s[1..])
    ensures IsSubsequence(sub, s)
    decreases |s|, 1
  {
    if sub != [] && sub[0] == s[0] {
      SubsequenceDropHead(sub, s[1..]);
    }
  }

  /** Dropping the first element of a subsequence leaves a subsequence. */
  lemma {:induction false} SubsequenceDropHead<T>(sub: seq<T>, s: seq<T>)
    requires sub != []
    requires IsSubsequence(sub, s)
    ensures IsSubsequence(sub[1..], s)
    decreases |s|, 2
  {
    if sub[0] == s[0] {
      SubsequenceOfTail(sub[1..], s);
    } else {
      SubsequenceDropHead(sub, s[1..]);
      SubsequenceOfTail(sub[1..], s);
    }
  }

  /** Removing twice is removing once. */
  lemma {:induction false} RemoveAllIdempotent<T>(s: seq<T>, x: T)
    ensures RemoveAll(RemoveAll(s, x), x) == RemoveAll(s, x)
  {
    RemoveAllAbsent(RemoveAll(s, x), x);
  }

  /** Removing from a duplicate-free sequence keeps it duplicate-free. */
  lemma {:induction false} RemoveAllNoDuplicates<T>(s: seq<T>, x: T)
    requires NoDuplicates(s)
    ensures NoDuplicates(RemoveAll(s, x))
  {
    if s != [] {
      RemoveAllNoDuplicates(s[1..], x);
      if s[0] != x {
        var r := RemoveAll(s[1..], x);
        assert s[0] !in s[1..];
        assert s[0] !in r;
        forall i, j | 0 <= i < j < |[s[0]] + r| ensures ([s[0]] + r)[i] != ([s[0]] + r)[j] {
          if i > 0 {
            assert ([s[0]] + r)[i] == r[i - 1] && ([s[0]] + r)[j] == r[j - 1];
          } else {
            assert ([s[0]] + r)[j] == r[j - 1];
          }
        }
      }
    }
  }
}
