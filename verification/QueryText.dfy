/** What the keyword search, the splitting and the trimming of the query parser find in a text. */
module QueryText {
  import opened Wrappers
  import opened QueryParser
  import opened Text

  // ---- Looking for keywords ---------------------------------------------------------------------------

  predicate Hit(s: string, k: nat, kw: string) {
    k + |kw| <= |s| && forall j :: 0 <= j < |kw| ==> kw[j] == LowerChar(s[k + j])
  }

  ghost predicate NoHit(s: string, kw: string) { forall k: nat :: !Hit(s, k, kw) }

  predicate Word(w: string) { w != [] && forall j :: 0 <= j < |w| ==> w[j] != ' ' }

  function Spaced(w: string): string { " " + w + " " }

  /** The word occurs nowhere in the text, whatever its case and wherever the text is put between spaces. */
  ghost predicate Free(s: string, w: string) { NoHit(Spaced(s), Spaced(w)) }

  lemma HitIsWindow(s: string, k: nat, kw: string)
    ensures Hit(s, k, kw) <==> At(Lower(s), k, kw)
    ensures Hit(s, k, kw) <==> k + |kw| <= |s| && Lower(s[k..k + |kw|]) == kw
  {
    if At(Lower(s), k, kw) {
      forall j | 0 <= j < |kw| ensures kw[j] == LowerChar(s[k + j]) {
        assert kw[j] == Lower(s)[k..k + |kw|][j];
      }
    }
  }

  lemma NoHitAt(s: string, i: nat, j: nat, k: nat, kw: string)
    requires i <= k && k + |kw| <= j <= |s| && !Hit(s[i..j], k - i, kw)
    ensures !Hit(s, k, kw)
  {
  }

  /** One character that differs is enough. */
  lemma Differs(s: string, k: nat, kw: string, j: nat)
    requires j < |kw| && k + j < |s| && LowerChar(s[k + j]) != kw[j]
    ensures !Hit(s, k, kw)
  {
  }

  lemma NoHitInside(s: string, i: nat, j: nat, kw: string)
    requires i <= j <= |s| && NoHit(s, kw)
    ensures NoHit(s[i..j], kw)
  {
    forall k: nat ensures !Hit(s[i..j], k, kw) {
      if Hit(s[i..j], k, kw) { assert Hit(s, k + i, kw); }
    }
  }

  lemma FreeIsNoHit(s: string, w: string)
    requires Free(s, w)
    ensures NoHit(s, Spaced(w)) && NoHit(" " + s, Spaced(w)) && NoHit(s + " ", Spaced(w))
  {
    var t := Spaced(s);
    NoHitInside(t, 1, |s| + 1, Spaced(w));
    NoHitInside(t, 0, |s| + 1, Spaced(w));
    NoHitInside(t, 1, |s| + 2, Spaced(w));
    assert t[1..|s| + 1] == s && t[0..|s| + 1] == " " + s && t[1..|s| + 2] == s + " ";
  }

  lemma FreeJoin(a: string, b: string, w: string)
    requires Word(w) && Free(a, w) && Free(b, w)
    ensures Free(a + " " + b, w)
  {
    var s, kw, p := Spaced(a + " " + b), Spaced(w), |a| + 1;
    assert s[0..p + 1] == Spaced(a) && s[p..|s|] == Spaced(b);
    forall k: nat | k + |kw| <= |s| ensures !Hit(s, k, kw) {
      if k + |kw| <= p + 1 {
        NoHitAt(s, 0, p + 1, k, kw);
      } else if k >= p {
        NoHitAt(s, p, |s|, k, kw);
      } else {
        assert kw[p - k] == w[p - k - 1];
        Differs(s, k, kw, p - k);
      }
    }
  }

  /** Two texts on either side of a character the keyword does not contain. */
  lemma NoHitMark(a: string, c: char, b: string, kw: string)
    requires kw != [] && LowerChar(c) !in kw && NoHit(a, kw) && NoHit(b, kw)
    ensures NoHit(a + [c] + b, kw)
  {
    var s, p := a + [c] + b, |a|;
    assert s[0..p] == a && s[p + 1..|s|] == b;
    forall k: nat | k + |kw| <= |s| ensures !Hit(s, k, kw) {
      if k + |kw| <= p {
        NoHitAt(s, 0, p, k, kw);
      } else if k > p {
        NoHitAt(s, p + 1, |s|, k, kw);
      } else {
        Differs(s, k, kw, p - k);
      }
    }
  }

  lemma WordFree(v: string, w: string)
    requires Word(v) && Word(w) && Lower(v) != w
    ensures Free(v, w)
  {
    var s, kw := Spaced(v), Spaced(w);
    forall k: nat | k + |kw| <= |s| ensures !Hit(s, k, kw) {
      if k > 0 {
        Differs(s, k, kw, 0);
      } else if |w| < |v| {
        Differs(s, 0, kw, |w| + 1);
      } else {
        var j :| 0 <= j < |w| && Lower(v)[j] != w[j];
        Differs(s, 0, kw, j + 1);
      }
    }
  }

  lemma FirstHit(l: string, v: string, r: string, w: string)
    requires Word(w) && Lower(v) == w && Free(l, w)
    ensures Hit(l + Spaced(v) + r, |l|, Spaced(w))
    ensures forall k: nat :: k < |l| ==> !Hit(l + Spaced(v) + r, k, Spaced(w))
  {
    var s, kw := l + Spaced(v) + r, Spaced(w);
    FreeIsNoHit(l, w);
    assert s[0..|l| + 1] == l + " ";
    forall k: nat | k < |l| ensures !Hit(s, k, kw) {
      if k + |kw| <= |l| + 1 {
        NoHitAt(s, 0, |l| + 1, k, kw);
      } else {
        assert kw[|l| - k] == w[|l| - k - 1];
        Differs(s, k, kw, |l| - k);
      }
    }
    forall j | 0 <= j < |kw| ensures kw[j] == LowerChar(s[|l| + j]) {
      assert s[|l| + j] == Spaced(v)[j];
      if 1 <= j <= |w| { assert Lower(v)[j - 1] == w[j - 1]; }
    }
  }

  lemma LastHit(l: string, v: string, r: string, w: string)
    requires Word(w) && Lower(v) == w && Free(r, w)
    ensures Hit(l + Spaced(v) + r, |l|, Spaced(w))
    ensures forall k: nat :: |l| < k ==> !Hit(l + Spaced(v) + r, k, Spaced(w))
  {
    var s, kw := l + Spaced(v) + r, Spaced(w);
    FreeIsNoHit(r, w);
    var p := |l| + |w| + 1;
    assert s[p..|s|] == " " + r;
    forall k: nat | |l| < k && k + |kw| <= |s| ensures !Hit(s, k, kw) {
      if k >= p {
        NoHitAt(s, p, |s|, k, kw);
      } else {
        assert s[k] == v[k - |l| - 1] && Lower(v)[k - |l| - 1] == w[k - |l| - 1];
        Differs(s, k, kw, 0);
      }
    }
    forall j | 0 <= j < |kw| ensures kw[j] == LowerChar(s[|l| + j]) {
      assert s[|l| + j] == Spaced(v)[j];
      if 1 <= j <= |w| { assert Lower(v)[j - 1] == w[j - 1]; }
    }
  }

  lemma FindFirst(l: string, v: string, r: string, w: string)
    requires Word(w) && Lower(v) == w && Free(l, w)
    ensures Find(Lower(l + Spaced(v) + r), Spaced(w)) == Some(|l|)
  {
    var s, kw := l + Spaced(v) + r, Spaced(w);
    FirstHit(l, v, r, w);
    forall k: nat ensures Hit(s, k, kw) <==> At(Lower(s), k, kw) { HitIsWindow(s, k, kw); }
  }

  lemma FindNone(s: string, w: string)
    requires Free(s, w)
    ensures Find(Lower(s), Spaced(w)) == None
  {
    FreeIsNoHit(s, w);
    if Find(Lower(s), Spaced(w)).Some? { HitIsWindow(s, Find(Lower(s), Spaced(w)).value, Spaced(w)); }
  }

  lemma RFindLast(l: string, v: string, r: string, w: string)
    requires Word(w) && Lower(v) == w && Free(r, w)
    ensures RFind(Lower(l + Spaced(v) + r), Spaced(w)) == Some(|l|)
  {
    var s, kw := l + Spaced(v) + r, Spaced(w);
    LastHit(l, v, r, w);
    forall k: nat ensures Hit(s, k, kw) <==> At(Lower(s), k, kw) { HitIsWindow(s, k, kw); }
  }

  lemma RFindNone(s: string, w: string)
    requires Free(s, w)
    ensures RFind(Lower(s), Spaced(w)) == None
  {
    FreeIsNoHit(s, w);
    if RFind(Lower(s), Spaced(w)).Some? { HitIsWindow(s, RFind(Lower(s), Spaced(w)).value, Spaced(w)); }
  }

  /** " order by " ends in " by ". */
  lemma OrderByHasBy(s: string, k: nat)
    requires Hit(s, k, " order by ")
    ensures Hit(s, k + 6, Spaced("by"))
  {
    var kw := " order by ";
    forall j | 0 <= j < 4 ensures Spaced("by")[j] == LowerChar(s[k + 6 + j]) {
      assert kw[6 + j] == LowerChar(s[k + (6 + j)]);
    }
  }

  lemma RFindOrderBy(l: string, o: string, b: string, r: string)
    requires Lower(o) == "order" && Lower(b) == "by" && Free(r, "by")
    ensures RFind(Lower(l + Spaced(o + " " + b) + r), " order by ") == Some(|l|)
  {
    var s, kw := l + Spaced(o + " " + b) + r, " order by ";
    assert s == (l + " " + o) + Spaced(b) + r;
    LastHit(l + " " + o, b, r, "by");
    forall k: nat ensures Hit(s, k, kw) <==> At(Lower(s), k, kw) { HitIsWindow(s, k, kw); }
    forall k: nat | |l| < k ensures !Hit(s, k, kw) {
      if Hit(s, k, kw) { OrderByHasBy(s, k); }
    }
    assert Hit(s, |l|, kw) by {
      forall j | 0 <= j < |kw| ensures kw[j] == LowerChar(s[|l| + j]) {
        assert s[|l| + j] == Spaced(o + " " + b)[j];
        if 1 <= j <= 5 { assert Lower(o)[j - 1] == kw[j]; }
        if 7 <= j <= 8 { assert Lower(b)[j - 7] == kw[j]; }
      }
    }
  }

  lemma RFindNoOrderBy(s: string)
    requires Free(s, "by")
    ensures RFind(Lower(s), " order by ") == None
  {
    FreeIsNoHit(s, "by");
    var r := RFind(Lower(s), " order by ");
    if r.Some? {
      HitIsWindow(s, r.value, " order by ");
      OrderByHasBy(s, r.value);
    }
  }

  // ---- Splitting ------------------------------------------------------------------------------------------

  function Depth(s: string, d: nat): nat {
    if s == [] then d else Depth(s[1..], DepthStep(s[0], d))
  }

  /** The depth ends where it began and is never less in between. */
  ghost predicate Balanced(s: string) {
    (forall d: nat :: Depth(s, d) == d) && forall d: nat, i: nat :: i <= |s| ==> Depth(s[..i], d) >= d
  }

  predicate NoParentheses(s: string) { '(' !in s && ')' !in s }

  lemma {:induction false} DepthOfJoin(a: string, b: string, d: nat)
    ensures Depth(a + b, d) == Depth(b, Depth(a, d))
  {
    if a == [] {
      assert a + b == b;
    } else {
      assert (a + b)[1..] == a[1..] + b;
      DepthOfJoin(a[1..], b, DepthStep(a[0], d));
    }
  }

  lemma {:induction false} DepthUnchanged(s: string, d: nat)
    requires NoParentheses(s)
    ensures Depth(s, d) == d
  {
    if s != [] {
      assert s[0] in s;
      DepthUnchanged(s[1..], d);
    }
  }

  lemma BalancedJoin(a: string, b: string)
    requires Balanced(a) && Balanced(b)
    ensures Balanced(a + b)
  {
    hide Depth;
    forall d: nat ensures Depth(a + b, d) == d { DepthOfJoin(a, b, d); }
    forall d: nat, i: nat | i <= |a + b| ensures Depth((a + b)[..i], d) >= d {
      if i <= |a| {
        assert (a + b)[..i] == a[..i];
      } else {
        assert (a + b)[..i] == a + b[..i - |a|];
        DepthOfJoin(a, b[..i - |a|], d);
      }
    }
  }

  lemma BalancedPlain(s: string)
    requires NoParentheses(s)
    ensures Balanced(s)
  {
    forall d: nat ensures Depth(s, d) == d { DepthUnchanged(s, d); }
    forall d: nat, i: nat | i <= |s| ensures Depth(s[..i], d) >= d { DepthUnchanged(s[..i], d); }
  }

  /** Inside parentheses the depth is one more. */
  lemma DepthInside(s: string, d: nat, i: nat)
    requires Balanced(s) && 0 < i <= |s| + 1
    ensures Depth(("(" + s + ")")[..i], d) >= d + 1
  {
    assert ("(" + s + ")")[..i] == "(" + s[..i - 1];
    DepthOfJoin("(", s[..i - 1], d);
    assert Depth("(", d) == d + 1;
  }

  lemma BalancedParentheses(s: string)
    requires Balanced(s)
    ensures Balanced("(" + s + ")")
  {
    var t := "(" + s + ")";
    forall d: nat ensures Depth(t, d) == d {
      DepthOfJoin("(" + s, ")", d);
      DepthOfJoin("(", s, d);
      assert Depth("(", d) == d + 1 && Depth(")", d + 1) == d;
    }
    forall d: nat, i: nat | i <= |t| ensures Depth(t[..i], d) >= d {
      if i == |t| {
        assert t[..i] == t;
      } else if i > 0 {
        DepthInside(s, d, i);
      }
    }
  }

  lemma {:induction false} SplitFinds(s: string, kw: string, i: nat, d: nat, p: nat)
    requires i <= p < |s| && kw != [] && Hit(s, p, kw) && s[p] != '(' && s[p] != ')'
    requires forall k: nat :: i <= k < p ==> !Hit(s, k, kw)
    requires Depth(s[i..p], d) == 0
    ensures SplitFrom(s, kw, i, d) == Some((Trim(s[..p]), Trim(s[p + |kw|..])))
    decreases p - i
  {
    HitIsWindow(s, i, kw);
    if i < p {
      assert s[i..p][1..] == s[i + 1..p];
      SplitFinds(s, kw, i + 1, DepthStep(s[i], d), p);
    }
  }

  lemma {:induction false} SplitFindsNothing(s: string, kw: string, i: nat, d: nat)
    requires kw != [] && forall k: nat :: i <= k ==> !Hit(s, k, kw)
    ensures SplitFrom(s, kw, i, d) == None
    decreases |s| - i
  {
    HitIsWindow(s, i, kw);
    if i < |s| { SplitFindsNothing(s, kw, i + 1, DepthStep(s[i], d)); }
  }

  // ---- Trimming -------------------------------------------------------------------------------------------

  predicate Tight(s: string) { s != [] && !IsSpace(s[0]) && !IsSpace(s[|s| - 1]) }

  lemma TrimTight(s: string)
    requires Tight(s)
    ensures Trim(s) == s && Trim(s + " ") == s && Trim(" " + s) == s
  {
    assert (s + " ")[..|s|] == s && (" " + s)[1..] == s;
    assert TrimStart(s + " ") == s + " " && TrimEnd(s + " ") == TrimEnd(s);
    assert TrimStart(" " + s) == TrimStart(s);
  }

  // ---- Texts without keywords -------------------------------------------------------------------------------

  ghost predicate Clear(s: string, ws: set<string>) { Tight(s) && forall w | w in ws :: Free(s, w) }

  predicate Words(ws: set<string>) { forall w | w in ws :: Word(w) }

  predicate Letters(w: string) { w != [] && forall j :: 0 <= j < |w| ==> 'a' <= w[j] <= 'z' }

  lemma ClearJoin(a: string, b: string, ws: set<string>)
    requires Words(ws) && Clear(a, ws) && Clear(b, ws)
    ensures Clear(a + " " + b, ws)
  {
    forall w | w in ws ensures Free(a + " " + b, w) { FreeJoin(a, b, w); }
  }

  lemma ClearAround(a: string, v: string, b: string, ws: set<string>)
    requires Words(ws) && Clear(a, ws) && Clear(v, ws) && Clear(b, ws)
    ensures Clear(a + Spaced(v) + b, ws)
  {
    ClearJoin(a, v, ws);
    ClearJoin(a + " " + v, b, ws);
    assert a + Spaced(v) + b == a + " " + v + " " + b;
  }

  lemma ClearWord(v: string, ws: set<string>)
    requires Words(ws) && v != [] && Lower(v) !in ws && forall j :: 0 <= j < |v| ==> !IsSpace(v[j])
    ensures Clear(v, ws)
  {
    forall w | w in ws ensures Free(v, w) { WordFree(v, w); }
  }

  lemma ClearKeyword(v: string, w: string, ws: set<string>)
    requires Words(ws) && Letters(w) && Lower(v) == w && w !in ws
    ensures Clear(v, ws) && NoParentheses(v)
  {
    forall j | 0 <= j < |v| ensures !IsSpace(v[j]) && v[j] != '(' && v[j] != ')' { assert Lower(v)[j] == w[j]; }
    ClearWord(v, ws);
  }

  lemma SplitClear(l: string, v: string, r: string, w: string)
    requires Word(w) && Lower(v) == w && Free(l, w) && Balanced(l) && Tight(l) && Tight(r)
    ensures Split(l + Spaced(v) + r, Spaced(w)) == Some((l, r))
  {
    var s, kw := l + Spaced(v) + r, Spaced(w);
    FirstHit(l, v, r, w);
    assert s[0..|l|] == l && s[..|l|] == l && s[|l| + |kw|..] == r;
    assert Depth(s[0..|l|], 0) == 0;
    SplitFinds(s, kw, 0, 0, |l|);
    TrimTight(l);
    TrimTight(r);
  }

  lemma SplitNothing(s: string, w: string)
    requires Free(s, w)
    ensures Split(s, Spaced(w)) == None
  {
    FreeIsNoHit(s, w);
    SplitFindsNothing(s, Spaced(w), 0, 0);
  }

  // ---- Parentheses ------------------------------------------------------------------------------------------

  /** A text that is inside parentheses up to `n` is not split before. */
  lemma {:induction false} NotSplitBefore(s: string, kw: string, i: nat, d: nat, n: nat)
    requires i <= n <= |s| && forall j: nat :: i <= j < n && s[j] != '(' && s[j] != ')' ==> Depth(s[i..j], d) > 0
    ensures SplitFrom(s, kw, i, d) == SplitFrom(s, kw, n, Depth(s[i..n], d))
    decreases n - i
  {
    if i < n {
      assert !SplitsAt(s, kw, i, d) by { assert s[i..i] == []; }
      assert s[i..n][1..] == s[i + 1..n];
      forall j: nat | i + 1 <= j < n && s[j] != '(' && s[j] != ')' ensures Depth(s[i + 1..j], DepthStep(s[i], d)) > 0 {
        assert s[i..j][1..] == s[i + 1..j];
      }
      NotSplitBefore(s, kw, i + 1, DepthStep(s[i], d), n);
    } else {
      assert s[i..n] == [];
    }
  }

  /** Splitting a text that starts with a parenthesised one is splitting what follows. */
  lemma SplitBehind(t: string, rest: string, kw: string)
    requires Balanced(t)
    ensures var s := "(" + t + ")" + rest;
            Split(s, kw) == SplitFrom(s, kw, |t| + 2, 0)
  {
    var p := "(" + t + ")";
    var s := p + rest;
    assert s[0..|p|] == p;
    BalancedParentheses(t);
    forall j: nat | 0 <= j < |p| && s[j] != '(' && s[j] != ')' ensures Depth(s[0..j], 0) > 0 {
      assert s[0..j] == p[..j];
      DepthInside(t, 0, j);
    }
    NotSplitBefore(s, kw, 0, 0, |p|);
  }

  /** Neither is a text split where the keyword does not stand. */
  lemma {:induction false} NoHitBefore(s: string, kw: string, i: nat, d: nat, n: nat)
    requires i <= n <= |s| && forall j: nat :: i <= j < n ==> !Hit(s, j, kw)
    ensures SplitFrom(s, kw, i, d) == SplitFrom(s, kw, n, Depth(s[i..n], d))
    decreases n - i
  {
    if i < n {
      HitIsWindow(s, i, kw);
      assert s[i..n][1..] == s[i + 1..n];
      NoHitBefore(s, kw, i + 1, DepthStep(s[i], d), n);
    } else {
      assert s[i..n] == [];
    }
  }

  /** A parenthesised text at the end, behind a word, is not split at another word. */
  lemma NotSplitAtEnd(a: string, v: string, t: string, w: string)
    requires Word(w) && '(' !in w && Balanced(a) && Free(a, w) && Free(v, w) && NoParentheses(v) && Balanced(t)
    ensures Split(a + Spaced(v) + ("(" + t + ")"), Spaced(w)) == None
  {
    var kw, head, p := Spaced(w), a + Spaced(v), "(" + t + ")";
    var s, n := head + p, |head|;
    FreeJoin(a, v, w);
    FreeIsNoHit(a + " " + v, w);
    assert s[0..n] == head == a + " " + v + " ";
    forall j: nat | j < n ensures !Hit(s, j, kw) {
      if j + |kw| <= n {
        NoHitAt(s, 0, n, j, kw);
      } else if j + |kw| <= |s| {
        assert s[n] == '(' && kw[n - j] != '(';
        Differs(s, j, kw, n - j);
      }
    }
    NoHitBefore(s, kw, 0, 0, n);
    BalancedPlain(Spaced(v));
    BalancedJoin(a, Spaced(v));
    assert Depth(s[0..n], 0) == 0;
    forall j: nat | n <= j < |s| && s[j] != '(' && s[j] != ')' ensures Depth(s[n..j], 0) > 0 {
      assert s[n..j] == p[..j - n];
      DepthInside(t, 0, j - n);
    }
    NotSplitBefore(s, kw, n, 0, |s|);
  }
}
