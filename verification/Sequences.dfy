/** Sequences without repeats, and cutting a sequence short. */
module Sequences {

  ghost predicate NoRepeats<T>(s: seq<T>) {
    forall i, j :: 0 <= i < j < |s| ==> s[i] != s[j]
  }

  function Without<T(==)>(s: seq<T>, x: T): seq<T> {
    if s == [] then [] else (if s[0] == x then [] else [s[0]]) + Without(s[1..], x)
  }

  lemma {:induction false} WithoutIs<T(!new)>(s: seq<T>, x: T)
    ensures forall y :: y in Without(s, x) <==> y in s && y != x
    ensures NoRepeats(s) ==> NoRepeats(Without(s, x))
  {
    if s != [] {
      WithoutIs(s[1..], x);
      var rest := Without(s[1..], x);
      assert forall j :: 0 <= j < |rest| ==> rest[j] in s[1..];
      assert NoRepeats(s) ==> NoRepeats(s[1..]) && forall i :: 1 <= i < |s| ==> s[0] != s[i];
    }
  }

  /** At most the first `k` elements. */
  function Take<T>(s: seq<T>, k: nat): seq<T> {
    if |s| <= k then s else s[..k]
  }

  /** Cutting before an insertion, at the cut at the latest, shows the same first elements as cutting after it. */
  lemma CutSplice<T>(s: seq<T>, x: T, n: nat, k: nat)
    requires n <= |s|
    ensures var t, m := Take(s, k), if n <= k then n else k;
            m <= |t| && Take(s[..n] + [x] + s[n..], k) == Take(t[..m] + [x] + t[m..], k)
            && (|s| <= k ==> t == s) && (|s| > k ==> t == s[..k])
  {
    var t, m := Take(s, k), if n <= k then n else k;
    var a, b := s[..n] + [x] + s[n..], t[..m] + [x] + t[m..];
    if |s| > k { assert forall i :: 0 <= i < k ==> a[i] == b[i]; }
  }
}
