/**
 * Facts about sequences that several parts of the model share: lists without
 * repeated elements, the first position of an element, and regrouping of
 * concatenations and prefixes.
 */
module Seqs {

  /** No element occurs twice. */
  predicate Distinct<T(==)>(s: seq<T>)
  {
    forall i, j :: 0 <= i < j < |s| ==> s[i] != s[j]
  }

  lemma DistinctTail<T>(s: seq<T>)
    requires Distinct(s) && s != []
    ensures Distinct(s[1..]) && s[0] !in s[1..]
  {
  }

  lemma DistinctAppend<T>(s: seq<T>, x: T)
    requires Distinct(s) && x !in s
    ensures Distinct(s + [x])
  {
  }

  /** The position of the first occurrence of `x` in `s` (`s.index(x)`). */
  function IndexIn<T(==)>(s: seq<T>, x: T): (i: nat)
    requires x in s
    ensures i < |s| && s[i] == x
    ensures forall k :: 0 <= k < i ==> s[k] != x
  {
    if s[0] == x then 0 else 1 + IndexIn(s[1..], x)
  }

  /** An element already in `s` keeps its first position when `s` is extended. */
  lemma IndexInExtended<T>(s: seq<T>, t: seq<T>, x: T)
    requires x in s
    ensures x in s + t && IndexIn(s + t, x) == IndexIn(s, x)
  {
    var i := IndexIn(s, x);
    assert (s + t)[i] == x;
    assert forall k :: 0 <= k < i ==> (s + t)[k] == s[k];
  }

  /** `s` without the element at position `i`. */
  function RemoveAt<T>(s: seq<T>, i: nat): seq<T>
    requires i < |s|
  {
    s[..i] + s[i + 1..]
  }

  /** Removing the first occurrence of `x` from `s` keeps a different head in front. */
  lemma RemoveFirstCons<T>(s: seq<T>, x: T)
    requires s != [] && s[0] != x && x in s
    ensures x in s[1..] && IndexIn(s, x) == 1 + IndexIn(s[1..], x)
    ensures RemoveAt(s, IndexIn(s, x)) == [s[0]] + RemoveAt(s[1..], IndexIn(s[1..], x))
  {
    var t := s[1..];
    var j := IndexIn(t, x);
    assert IndexIn(s, x) == 1 + j;
    assert s[..j + 1] == [s[0]] + t[..j];
    assert s[j + 2..] == t[j + 1..];
    Regroup([s[0]], t[..j], t[j + 1..]);
  }

  /** A prefix of a prefix is a prefix. */
  lemma PrefixOfPrefix<T>(s: seq<T>, n: nat, k: nat)
    requires k <= n <= |s|
    ensures s[..n][..k] == s[..k]
  {
  }

  lemma Regroup<T>(a: seq<T>, b: seq<T>, c: seq<T>)
    ensures a + b + c == a + (b + c)
  {
  }
}
