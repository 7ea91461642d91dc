/** Distinctness and first-match lookup over sequences. */
module Sequences {
  import opened Wrappers

  predicate Distinct<T(==)>(s: seq<T>) {
    forall i, j :: 0 <= i < j < |s| ==> s[i] != s[j]
  }

  /** The first position of `x` in `s`, if any. */
  function IndexOf<T(==)>(s: seq<T>, x: T): (r: Option<nat>)
    ensures r.Some? <==> x in s
    ensures r.Some? ==> r.value < |s| && s[r.value] == x && forall i :: 0 <= i < r.value ==> s[i] != x
  {
    if s == [] then None
    else if s[0] == x then Some(0)
    else match IndexOf(s[1..], x)
      case None => None
      case Some(i) => Some(i + 1)
  }

  lemma IndexOfDistinct<T>(s: seq<T>, i: nat)
    requires i < |s| && Distinct(s)
    ensures IndexOf(s, s[i]) == Some(i)
  {
  }

  /** One more entry keeps a distinct prefix distinct exactly when it is new. */
  lemma DistinctSnoc<T>(s: seq<T>, n: nat)
    requires n < |s| && Distinct(s[..n])
    ensures Distinct(s[..n + 1]) <==> s[n] !in s[..n]
  {
    var longer := s[..n + 1];
    if s[n] in s[..n] {
      var i :| 0 <= i < n && s[..n][i] == s[n];
      assert longer[i] == longer[n];
    } else {
      forall i, j | 0 <= i < j < |longer| ensures longer[i] != longer[j] {
        assert longer[i] == s[..n][i];
        if j < n {
          assert longer[j] == s[..n][j];
        }
      }
    }
  }

  function Elements<T>(s: seq<T>): set<T> {
    set x | x in s
  }

  lemma ConcatAssociates<T>(a: seq<T>, b: seq<T>, c: seq<T>)
    ensures a + (b + c) == (a + b) + c
  {
  }

  lemma TakeOneMore<T>(s: seq<T>, i: nat)
    requires i < |s|
    ensures s[..i + 1] == s[..i] + [s[i]]
  {
  }
}
