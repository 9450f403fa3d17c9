/** Strings and their order. */
module Strings {
  import opened Sequences

  /** Code point order of strings. */
  predicate StringLess(a: string, b: string) {
    if |b| == 0 then false
    else if |a| == 0 then true
    else a[0] < b[0] || (a[0] == b[0] && StringLess(a[1..], b[1..]))
  }

  lemma {:induction false} StringLessTransitive(a: string, b: string, c: string)
    requires StringLess(a, b) && StringLess(b, c)
    ensures StringLess(a, c)
  {
    if |a| > 0 && a[0] == b[0] == c[0] { StringLessTransitive(a[1..], b[1..], c[1..]); }
  }

  lemma {:induction false} StringLessTotal(a: string, b: string)
    ensures a == b <==> !StringLess(a, b) && !StringLess(b, a)
    ensures !(StringLess(a, b) && StringLess(b, a))
  {
    if |a| > 0 && |b| > 0 && a[0] == b[0] {
      StringLessTotal(a[1..], b[1..]);
      assert a == [a[0]] + a[1..] && b == [b[0]] + b[1..];
    } else if |a| == 0 && |b| == 0 {
      assert a == b;
    }
  }

  predicate StringLeq(a: string, b: string) { !StringLess(b, a) }

  lemma LessThenLeq(a: string, b: string, c: string)
    requires StringLess(a, b) && StringLeq(b, c)
    ensures StringLeq(a, c)
  {
    if StringLess(c, a) { StringLessTransitive(c, a, b); }
  }

  // ---- Sorting and deduplicating key lists -----------------------------------------------------

  function InsertString(x: string, s: seq<string>): seq<string> {
    if s == [] || StringLess(x, s[0]) then [x] + s else [s[0]] + InsertString(x, s[1..])
  }

  function SortStrings(s: seq<string>): seq<string> {
    if s == [] then [] else InsertString(s[0], SortStrings(s[1..]))
  }

  /** Removes repeated neighbours. */
  function Dedup(s: seq<string>): seq<string> {
    if |s| <= 1 then s
    else if s[0] == s[1] then Dedup(s[1..])
    else [s[0]] + Dedup(s[1..])
  }

  ghost predicate SortedStrings(s: seq<string>) {
    forall i, j :: 0 <= i < j < |s| ==> StringLeq(s[i], s[j])
  }

  lemma {:induction false} InsertStringSorts(x: string, s: seq<string>)
    requires SortedStrings(s)
    ensures SortedStrings(InsertString(x, s))
    ensures forall y :: y in InsertString(x, s) <==> y == x || y in s
  {
    if s != [] && !StringLess(x, s[0]) {
      var rest := InsertString(x, s[1..]);
      InsertStringSorts(x, s[1..]);
      forall j | 0 <= j < |rest| ensures StringLeq(s[0], rest[j]) {
        assert rest[j] == x || rest[j] in s[1..];
      }
    } else if s != [] {
      StringLessTotal(x, s[0]);
      forall j | 0 <= j < |s| ensures StringLeq(x, s[j]) {
        if j > 0 { LessThenLeq(x, s[0], s[j]); }
      }
    }
  }

  lemma {:induction false} SortStringsSorts(s: seq<string>)
    ensures SortedStrings(SortStrings(s))
    ensures forall y :: y in SortStrings(s) <==> y in s
  {
    if s != [] {
      SortStringsSorts(s[1..]);
      InsertStringSorts(s[0], SortStrings(s[1..]));
    }
  }

  lemma {:induction false} DedupSorted(s: seq<string>)
    requires SortedStrings(s)
    ensures NoRepeats(Dedup(s)) && SortedStrings(Dedup(s))
    ensures forall y :: y in Dedup(s) <==> y in s
    ensures s != [] ==> Dedup(s) != [] && Dedup(s)[0] == s[0]
  {
    if |s| > 1 {
      DedupSorted(s[1..]);
      if s[0] != s[1] {
        var rest := Dedup(s[1..]);
        forall j | 0 <= j < |rest| ensures s[0] != rest[j] && StringLeq(s[0], rest[j]) {
          assert rest[j] in s[1..];
          StringLessTotal(s[0], s[1]);
          assert j > 0 ==> StringLeq(rest[0], rest[j]);
        }
      }
    }
  }

  /** Sorting and then removing repeated neighbours keeps every key exactly once. */
  lemma SortDedup(s: seq<string>)
    ensures NoRepeats(Dedup(SortStrings(s)))
    ensures forall y :: y in Dedup(SortStrings(s)) <==> y in s
  {
    SortStringsSorts(s);
    DedupSorted(SortStrings(s));
  }
}
