/** ASCII text: case, white space, search and decimal integers. */
module Text {
  import opened Wrappers

  function LowerChar(c: char): char {
    if 'A' <= c <= 'Z' then (c as int + 32) as char else c
  }

  function Lower(s: string): (r: string)
    ensures |r| == |s| && forall i :: 0 <= i < |s| ==> r[i] == LowerChar(s[i])
  {
    seq(|s|, i requires 0 <= i < |s| => LowerChar(s[i]))
  }

  predicate IsSpace(c: char) { c == ' ' || 9 <= c as int <= 13 }

  function TrimStart(s: string): string {
    if s != [] && IsSpace(s[0]) then TrimStart(s[1..]) else s
  }

  function TrimEnd(s: string): string {
    if s != [] && IsSpace(s[|s| - 1]) then TrimEnd(s[..|s| - 1]) else s
  }

  function Trim(s: string): string { TrimEnd(TrimStart(s)) }

  predicate At(s: string, k: nat, pat: string) { k + |pat| <= |s| && s[k..k + |pat|] == pat }

  /** The first occurrence at or after `i`. */
  function FindFrom(s: string, pat: string, i: nat): (r: Option<nat>)
    ensures r.Some? ==> i <= r.value && At(s, r.value, pat) && forall k :: i <= k < r.value ==> !At(s, k, pat)
    ensures r.None? ==> forall k :: i <= k ==> !At(s, k, pat)
    decreases |s| - i
  {
    if i + |pat| > |s| then None
    else if s[i..i + |pat|] == pat then Some(i)
    else if i < |s| then FindFrom(s, pat, i + 1)
    else None
  }

  function Find(s: string, pat: string): Option<nat> { FindFrom(s, pat, 0) }

  /** The last occurrence before `i`. */
  function RFindBefore(s: string, pat: string, i: nat): (r: Option<nat>)
    ensures r.Some? ==> r.value < i && At(s, r.value, pat) && forall k :: r.value < k < i ==> !At(s, k, pat)
    ensures r.None? ==> forall k :: 0 <= k < i ==> !At(s, k, pat)
  {
    if i == 0 then None
    else if At(s, i - 1, pat) then Some(i - 1)
    else RFindBefore(s, pat, i - 1)
  }

  function RFind(s: string, pat: string): Option<nat> { RFindBefore(s, pat, |s| + 1) }

  function StartsWith(s: string, pat: string): bool { pat <= s }

  predicate IsDigit(c: char) { '0' <= c <= '9' }

  predicate AllDigits(s: string) { forall i :: 0 <= i < |s| ==> IsDigit(s[i]) }

  function DigitsValue(s: string): nat
    requires AllDigits(s)
  {
    if s == [] then 0 else 10 * DigitsValue(s[..|s| - 1]) + (s[|s| - 1] as int - '0' as int)
  }

  function Unsigned(s: string): Option<nat> {
    if s != [] && AllDigits(s) then Some(DigitsValue(s)) else None
  }

  /** `parse::<i64>` */
  function ParseI64(s: string): Option<int> {
    var negative := s != [] && s[0] == '-';
    var n := Unsigned(if s != [] && (s[0] == '-' || s[0] == '+') then s[1..] else s);
    if n.None? then None
    else
      var v := if negative then -(n.value as int) else n.value as int;
      if -0x8000_0000_0000_0000 <= v < 0x8000_0000_0000_0000 then Some(v) else None
  }

  /** `parse::<usize>` */
  function ParseUsize(s: string): Option<nat> {
    var n := Unsigned(if s != [] && s[0] == '+' then s[1..] else s);
    if n.Some? && n.value < 0x1_0000_0000_0000_0000 then n else None
  }

  lemma {:induction false} TrimShorter(s: string)
    ensures |Trim(s)| <= |s|
  {
    TrimStartShorter(s);
    TrimEndShorter(TrimStart(s));
  }

  lemma {:induction false} TrimStartShorter(s: string)
    ensures |TrimStart(s)| <= |s|
  {
    if s != [] && IsSpace(s[0]) { TrimStartShorter(s[1..]); }
  }

  lemma {:induction false} TrimEndShorter(s: string)
    ensures |TrimEnd(s)| <= |s|
  {
    if s != [] && IsSpace(s[|s| - 1]) { TrimEndShorter(s[..|s| - 1]); }
  }
}
