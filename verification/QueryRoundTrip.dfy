/** Printing a subscription query and parsing the text gives back the filter it was printed from. */
module QueryRoundTrip {
  import opened Wrappers
  import opened Json
  import opened Filter
  import opened QueryParser
  import opened Text
  import opened QueryText

  // ---- Queries as text --------------------------------------------------------------------------------------

  /** One of the eight comparators. */
  type Comparator = n: nat | n < |OPERATORS|

  /** One condition: a comparison or a list. */
  datatype Atom =
    | Single(field: string, comparator: Comparator, literal: string)
    | Listed(field: string, literals: seq<string>)

  /** How the query spells its keywords. */
  datatype Keywords = Keywords(
    subscribeWord: string, whereWord: string, orWord: string, andWord: string, inWord: string,
    orderWord: string, byWord: string, limitWord: string)

  /** The condition is an OR of ANDs; no alternative at all stands for a query without WHERE. */
  datatype Query = Query(
    prefixed: bool, table: string, alternatives: seq<seq<Atom>>,
    orderBy: Option<(string, Option<string>)>, limit: Option<string>)

  function CommaText(literals: seq<string>): string {
    if literals == [] then ""
    else if |literals| == 1 then literals[0]
    else literals[0] + ", " + CommaText(literals[1..])
  }

  function AtomText(k: Keywords, a: Atom): string {
    match a
    case Single(field, n, literal) => field + Spaced(OPERATORS[n].0) + literal
    case Listed(field, literals) => field + Spaced(k.inWord) + ("(" + CommaText(literals) + ")")
  }

  function AndText(k: Keywords, atoms: seq<Atom>): string {
    if atoms == [] then ""
    else if |atoms| == 1 then AtomText(k, atoms[0])
    else AtomText(k, atoms[0]) + Spaced(k.andWord) + AndText(k, atoms[1..])
  }

  function OrText(k: Keywords, groups: seq<seq<Atom>>): string {
    if groups == [] then ""
    else if |groups| == 1 then AndText(k, groups[0])
    else AndText(k, groups[0]) + Spaced(k.orWord) + OrText(k, groups[1..])
  }

  function FromText(k: Keywords, q: Query): string {
    if q.alternatives == [] then q.table
    else q.table + Spaced(k.whereWord) + OrText(k, q.alternatives)
  }

  function DirectedField(field: string, direction: Option<string>): string {
    if direction.None? then field else field + " " + direction.value
  }

  function OrderedText(k: Keywords, q: Query): string {
    match q.orderBy
    case None => FromText(k, q)
    case Some((field, direction)) =>
      FromText(k, q) + Spaced(k.orderWord + " " + k.byWord) + DirectedField(field, direction)
  }

  function LimitedText(k: Keywords, q: Query): string {
    if q.limit.None? then OrderedText(k, q)
    else OrderedText(k, q) + Spaced(k.limitWord) + q.limit.value
  }

  function QueryString(k: Keywords, q: Query): string {
    if q.prefixed then k.subscribeWord + " " + LimitedText(k, q) else LimitedText(k, q)
  }

  // ---- Queries the printer accepts --------------------------------------------------------------------------

  const FROM_WORDS: set<string> := {"by", "limit"}
  const OR_WORDS: set<string> := {"where", "by", "limit"}
  const AND_WORDS: set<string> := {"or", "where", "by", "limit"}
  const LIST_WORDS: set<string> := {"or", "and", "where", "by", "limit"}
  const ATOM_WORDS: set<string> := {"or", "and", "in", "where", "by", "limit"}

  predicate WellSpelled(k: Keywords) {
    && Lower(k.subscribeWord) == "subscribe" && Lower(k.whereWord) == "where" && Lower(k.orWord) == "or"
    && Lower(k.andWord) == "and" && Lower(k.inWord) == "in" && Lower(k.orderWord) == "order"
    && Lower(k.byWord) == "by" && Lower(k.limitWord) == "limit"
  }

  predicate IsOperatorChar(c: char) { c == '<' || c == '>' || c == '=' || c == '!' }

  predicate NoOperators(s: string) { forall i :: 0 <= i < |s| ==> !IsOperatorChar(s[i]) }

  /** A field name or a literal: trimmed, without keywords and parentheses. */
  ghost predicate PlainText(s: string) { Clear(s, ATOM_WORDS) && NoParentheses(s) }

  ghost predicate WellFormedLiteral(pf: DoubleParser, s: string) { PlainText(s) && ParseValue(pf, s).Ok? }

  ghost predicate WellFormedLiterals(pf: DoubleParser, literals: seq<string>) {
    forall i :: 0 <= i < |literals| ==> ',' !in literals[i] && WellFormedLiteral(pf, literals[i])
  }

  ghost predicate WellFormedAtom(pf: DoubleParser, a: Atom) {
    PlainText(a.field)
    && match a
       case Single(field, _, literal) =>
         NoOperators(field) && NoOperators(literal) && WellFormedLiteral(pf, literal)
       case Listed(_, literals) => literals != [] && WellFormedLiterals(pf, literals)
  }

  ghost predicate WellFormedAtoms(pf: DoubleParser, atoms: seq<Atom>) {
    atoms != [] && forall i :: 0 <= i < |atoms| ==> WellFormedAtom(pf, atoms[i])
  }

  ghost predicate WellFormedGroups(pf: DoubleParser, groups: seq<seq<Atom>>) {
    groups != [] && forall i :: 0 <= i < |groups| ==> WellFormedAtoms(pf, groups[i])
  }

  predicate SpaceFree(s: string) { s != [] && forall i :: 0 <= i < |s| ==> !IsSpace(s[i]) }

  predicate WellFormedOrder(field: string, direction: Option<string>) {
    SpaceFree(field) && Lower(field) !in FROM_WORDS
    && (direction.Some? ==> Lower(direction.value) == "asc" || Lower(direction.value) == "desc")
  }

  function DirectionOf(direction: Option<string>): SortDirection {
    if direction.Some? && Lower(direction.value) == "desc" then Desc else Asc
  }

  ghost predicate WellFormed(pf: DoubleParser, q: Query) {
    && Clear(q.table, OR_WORDS)
    && (q.prefixed || !StartsWith(Lower(q.table + " "), "subscribe "))
    && (q.alternatives != [] ==> WellFormedGroups(pf, q.alternatives))
    && (q.orderBy.Some? ==>
          var (field, direction) := q.orderBy.value;
          WellFormedOrder(field, direction))
    && (q.limit.Some? ==> ParseUsize(q.limit.value).Some?)
  }

  // ---- What a query says --------------------------------------------------------------------------------------

  ghost function LiteralValues(pf: DoubleParser, literals: seq<string>): seq<Value>
    requires WellFormedLiterals(pf, literals)
  {
    if literals == [] then []
    else
      assert WellFormedLiteral(pf, literals[0]);
      [ParseValue(pf, literals[0]).value] + LiteralValues(pf, literals[1..])
  }

  ghost function AtomMeaning(pf: DoubleParser, a: Atom): Predicate
    requires WellFormedAtom(pf, a)
  {
    match a
    case Single(field, n, literal) => Comparison(field, OPERATORS[n].1, ParseValue(pf, literal).value)
    case Listed(field, literals) => In(field, LiteralValues(pf, literals))
  }

  ghost function AndMeaning(pf: DoubleParser, atoms: seq<Atom>): Predicate
    requires WellFormedAtoms(pf, atoms)
  {
    if |atoms| == 1 then AtomMeaning(pf, atoms[0])
    else And(AtomMeaning(pf, atoms[0]), AndMeaning(pf, atoms[1..]))
  }

  ghost function OrMeaning(pf: DoubleParser, groups: seq<seq<Atom>>): Predicate
    requires WellFormedGroups(pf, groups)
  {
    if |groups| == 1 then AndMeaning(pf, groups[0])
    else Or(AndMeaning(pf, groups[0]), OrMeaning(pf, groups[1..]))
  }

  ghost function Meaning(pf: DoubleParser, q: Query): SubscriptionFilter
    requires WellFormed(pf, q)
  {
    SubscriptionFilter(
      q.table,
      if q.alternatives == [] then None else Some(OrMeaning(pf, q.alternatives)),
      match q.orderBy
      case None => None
      case Some((field, direction)) => Some(OrderBy(field, DirectionOf(direction))),
      if q.limit.None? then None else ParseUsize(q.limit.value))
  }

  // ---- Comparisons ---------------------------------------------------------------------------------------------

  /** Where a comparator is found in a printed comparison. */
  lemma FindComparator(f: string, op: string, l: string, t: string)
    requires NoOperators(f) && NoOperators(l) && op != [] && t != []
    requires forall i :: 0 <= i < |t| ==> IsOperatorChar(t[i])
    requires |t| >= |op|
    ensures Find(f + Spaced(op) + l, t) == if t == op then Some(|f| + 1) else None
  {
    var s := f + Spaced(op) + l;
    forall k: nat | At(s, k, t) ensures k == |f| + 1 && t == op {
      assert s[k..k + |t|][0] == s[k] && s[k..k + |t|][|t| - 1] == s[k + |t| - 1];
      assert |f| + 1 <= k && k + |t| - 1 <= |f| + |op|;
      assert s[|f| + 1..|f| + 1 + |op|] == op;
    }
    if t == op {
      assert s[|f| + 1..|f| + 1 + |op|] == op;
      assert At(s, |f| + 1, t);
    }
  }

  lemma ComparatorsOrdered(m: nat, n: nat)
    requires m <= n < |OPERATORS|
    ensures |OPERATORS[m].0| >= |OPERATORS[n].0| > 0 && (OPERATORS[m].0 == OPERATORS[n].0 <==> m == n)
    ensures forall i :: 0 <= i < |OPERATORS[m].0| ==> IsOperatorChar(OPERATORS[m].0[i])
  {
  }

  lemma AroundComparator(f: string, op: string, l: string)
    requires Tight(f) && Tight(l)
    ensures var s, i := f + Spaced(op) + l, |f| + 1;
            Trim(s[..i]) == f && Trim(s[i + |op|..]) == l && (|op| == 1 ==> !PartOfLonger(s, i))
  {
    var s, i := f + Spaced(op) + l, |f| + 1;
    assert s[..i] == f + " " && s[i + |op|..] == " " + l;
    TrimTight(f);
    TrimTight(l);
    if |op| == 1 { assert s[i - 1] == ' ' && s[i + 1] == ' '; }
  }

  /** A comparison once its value has been read, or the error of the value. */
  function Compared(field: string, op: ComparisonOp, value: Result<Value, ParseError>): Result<Predicate, ParseError> {
    match value case Ok(v) => Ok(Comparison(field, op, v)) case Err(e) => Err(e)
  }

  lemma TakeComparator(pf: DoubleParser, s: string, n: Comparator, i: nat)
    requires Find(s, OPERATORS[n].0) == Some(i) && i + |OPERATORS[n].0| <= |s|
    requires OPERATORS[n].0 == "=" ==> !PartOfLonger(s, i)
    ensures ParseComparisonFrom(pf, s, n)
            == Compared(Trim(s[..i]), OPERATORS[n].1, ParseValue(pf, Trim(s[i + |OPERATORS[n].0|..])))
  {
    hide ParseValue, Trim, Find, PartOfLonger;
  }

  lemma ParseAtComparator(pf: DoubleParser, f: string, n: Comparator, l: string)
    requires Tight(f) && Tight(l) && NoOperators(f) && NoOperators(l)
    ensures ParseComparisonFrom(pf, f + Spaced(OPERATORS[n].0) + l, n) == Compared(f, OPERATORS[n].1, ParseValue(pf, l))
  {
    hide ParseValue, ParseComparisonFrom, Trim, Find, PartOfLonger, NoOperators, Tight;
    var op := OPERATORS[n].0;
    ComparatorsOrdered(n, n);
    FindComparator(f, op, l, op);
    AroundComparator(f, op, l);
    TakeComparator(pf, f + Spaced(op) + l, n, |f| + 1);
  }

  lemma SkipComparator(pf: DoubleParser, s: string, m: nat)
    requires m < |OPERATORS| && Find(s, OPERATORS[m].0) == None
    ensures ParseComparisonFrom(pf, s, m) == ParseComparisonFrom(pf, s, m + 1)
  {
  }

  lemma {:induction false} ParseFromComparator(pf: DoubleParser, f: string, n: Comparator, l: string, m: nat)
    requires m <= n && Tight(f) && Tight(l) && NoOperators(f) && NoOperators(l)
    ensures ParseComparisonFrom(pf, f + Spaced(OPERATORS[n].0) + l, m) == Compared(f, OPERATORS[n].1, ParseValue(pf, l))
    decreases n - m
  {
    hide ParseValue, ParseComparisonFrom, Find, NoOperators, Tight;
    if m < n {
      ComparatorsOrdered(m, n);
      FindComparator(f, OPERATORS[n].0, l, OPERATORS[m].0);
      SkipComparator(pf, f + Spaced(OPERATORS[n].0) + l, m);
      ParseFromComparator(pf, f, n, l, m + 1);
    } else {
      ParseAtComparator(pf, f, n, l);
    }
  }

  // ---- Lists -----------------------------------------------------------------------------------------------------

  lemma SplitAtComma(l: string, r: string)
    requires ',' !in l
    ensures SplitCommas(l) == [l] && SplitCommas(l + "," + r) == [l] + SplitCommas(r)
  {
    var s := l + "," + r;
    forall k: nat | k < |l| ensures !At(s, k, ",") && !At(l, k, ",") {
      assert s[k..k + 1][0] == l[k] == l[k..k + 1][0];
    }
    assert s[|l|..|l| + 1] == "," && s[..|l|] == l && s[|l| + 1..] == r;
    assert At(s, |l|, ",");
  }

  lemma FirstLiteral(pf: DoubleParser, pad: string, ls: seq<string>)
    requires ls != [] && WellFormedLiterals(pf, ls) && (pad == "" || pad == " ")
    ensures ',' !in pad + ls[0] && Trim(pad + ls[0]) == ls[0] && ParseValue(pf, ls[0]).Ok?
    ensures WellFormedLiterals(pf, ls[1..])
  {
    assert WellFormedLiteral(pf, ls[0]);
    TrimTight(ls[0]);
    assert pad == "" ==> pad + ls[0] == ls[0];
  }

  lemma ParseOne(pf: DoubleParser, part: string, parts: seq<string>)
    requires ParseValue(pf, Trim(part)).Ok? && ParseValues(pf, parts).Ok?
    ensures ParseValues(pf, [part] + parts) == Ok([ParseValue(pf, Trim(part)).value] + ParseValues(pf, parts).value)
  {
    assert ([part] + parts)[1..] == parts;
    hide ParseValue, Trim;
  }

  lemma NoValues(pf: DoubleParser)
    ensures ParseValues(pf, []) == Ok([])
  {
  }

  /** The literals come back whether or not a space follows the comma before them. */
  lemma {:induction false} ParseCommaText(pf: DoubleParser, pad: string, ls: seq<string>)
    requires ls != [] && WellFormedLiterals(pf, ls) && (pad == "" || pad == " ")
    ensures ParseValues(pf, SplitCommas(pad + CommaText(ls))) == Ok(LiteralValues(pf, ls))
    decreases |ls|
  {
    hide ParseValue, Trim, SplitCommas, WellFormedLiterals, ParseValues;
    var head, rest := pad + ls[0], " " + CommaText(ls[1..]);
    FirstLiteral(pf, pad, ls);
    SplitAtComma(head, rest);
    if |ls| == 1 {
      NoValues(pf);
      ParseOne(pf, head, []);
      assert [head] + [] == [head] && LiteralValues(pf, ls[1..]) == [];
    } else {
      assert pad + CommaText(ls) == head + "," + rest;
      ParseCommaText(pf, " ", ls[1..]);
      ParseOne(pf, head, SplitCommas(rest));
    }
  }

  // ---- Texts of the parts ---------------------------------------------------------------------------------------

  lemma WordsOfQueries()
    ensures Words(ATOM_WORDS) && Words(LIST_WORDS) && Words(AND_WORDS) && Words(OR_WORDS) && Words(FROM_WORDS)
    ensures Letters("subscribe") && Letters("where") && Letters("or") && Letters("and")
    ensures Letters("in") && Letters("order") && Letters("by") && Letters("limit")
  {
  }

  lemma ComparatorClear(n: Comparator)
    ensures Clear(OPERATORS[n].0, ATOM_WORDS) && NoParentheses(OPERATORS[n].0)
  {
    WordsOfQueries();
    var op := OPERATORS[n].0;
    forall w | w in ATOM_WORDS ensures Lower(op) != w { assert Lower(op)[0] == op[0] != w[0]; }
    ClearWord(op, ATOM_WORDS);
  }

  lemma SingleText(pf: DoubleParser, k: Keywords, a: Atom)
    requires WellFormedAtom(pf, a) && a.Single?
    ensures Clear(AtomText(k, a), ATOM_WORDS) && Balanced(AtomText(k, a))
  {
    WordsOfQueries();
    ComparatorClear(a.comparator);
    ClearAround(a.field, OPERATORS[a.comparator].0, a.literal, ATOM_WORDS);
    BalancedPlain(AtomText(k, a));
  }

  lemma {:induction false} CommaTextFree(pf: DoubleParser, ls: seq<string>, w: string)
    requires ls != [] && WellFormedLiterals(pf, ls) && w in ATOM_WORDS
    ensures NoHit(CommaText(ls), Spaced(w)) && NoHit(" " + CommaText(ls), Spaced(w)) && NoParentheses(CommaText(ls))
    decreases |ls|
  {
    hide NoHit, Free, ParseValue;
    assert WellFormedLiteral(pf, ls[0]);
    FreeIsNoHit(ls[0], w);
    if |ls| > 1 {
      hide Clear;
      CommaTextFree(pf, ls[1..], w);
      assert ',' !in Spaced(w);
      NoHitMark(ls[0], ',', " " + CommaText(ls[1..]), Spaced(w));
      NoHitMark(" " + ls[0], ',', " " + CommaText(ls[1..]), Spaced(w));
      assert CommaText(ls) == ls[0] + [','] + (" " + CommaText(ls[1..]));
      assert " " + CommaText(ls) == " " + ls[0] + [','] + (" " + CommaText(ls[1..]));
    }
  }

  lemma ListFree(pf: DoubleParser, ls: seq<string>, w: string)
    requires ls != [] && WellFormedLiterals(pf, ls) && w in ATOM_WORDS
    ensures Free("(" + CommaText(ls) + ")", w)
  {
    hide CommaText;
    var c, kw := CommaText(ls), Spaced(w);
    CommaTextFree(pf, ls, w);
    assert '(' !in kw && ')' !in kw;
    NoHitMark(" ", '(', c, kw);
    NoHitMark(" " + ['('] + c, ')', " ", kw);
    assert Spaced("(" + c + ")") == " " + ['('] + c + [')'] + " ";
  }

  lemma ListedText(pf: DoubleParser, k: Keywords, a: Atom)
    requires WellSpelled(k) && WellFormedAtom(pf, a) && a.Listed?
    ensures Clear(AtomText(k, a), LIST_WORDS) && Balanced(AtomText(k, a))
  {
    WordsOfQueries();
    var c := CommaText(a.literals);
    forall w | w in LIST_WORDS ensures Free("(" + c + ")", w) { ListFree(pf, a.literals, w); }
    CommaTextFree(pf, a.literals, "or");
    ClearKeyword(k.inWord, "in", LIST_WORDS);
    ClearAround(a.field, k.inWord, "(" + c + ")", LIST_WORDS);
    BalancedPlain(a.field + Spaced(k.inWord));
    BalancedPlain(c);
    BalancedParentheses(c);
    BalancedJoin(a.field + Spaced(k.inWord), "(" + c + ")");
  }

  lemma TextOfAtom(pf: DoubleParser, k: Keywords, a: Atom)
    requires WellSpelled(k) && WellFormedAtom(pf, a)
    ensures Clear(AtomText(k, a), LIST_WORDS) && Balanced(AtomText(k, a))
  {
    if a.Single? { SingleText(pf, k, a); } else { ListedText(pf, k, a); }
  }

  lemma {:induction false} TextOfAnds(pf: DoubleParser, k: Keywords, atoms: seq<Atom>)
    requires WellSpelled(k) && WellFormedAtoms(pf, atoms)
    ensures Clear(AndText(k, atoms), AND_WORDS) && Balanced(AndText(k, atoms))
    decreases |atoms|
  {
    hide Clear, Balanced, WellFormedAtom;
    ClearSubset(AtomText(k, atoms[0]), LIST_WORDS, AND_WORDS) by { TextOfAtom(pf, k, atoms[0]); }
    TextOfAtom(pf, k, atoms[0]);
    if |atoms| > 1 {
      WordsOfQueries();
      TextOfAnds(pf, k, atoms[1..]);
      ClearKeyword(k.andWord, "and", AND_WORDS);
      ClearAround(AtomText(k, atoms[0]), k.andWord, AndText(k, atoms[1..]), AND_WORDS);
      BalancedAround(AtomText(k, atoms[0]), k.andWord, AndText(k, atoms[1..]));
    }
  }

  lemma {:induction false} TextOfOrs(pf: DoubleParser, k: Keywords, groups: seq<seq<Atom>>)
    requires WellSpelled(k) && WellFormedGroups(pf, groups)
    ensures Clear(OrText(k, groups), OR_WORDS)
    decreases |groups|
  {
    hide Clear, Balanced, WellFormedAtoms;
    TextOfAnds(pf, k, groups[0]);
    ClearSubset(AndText(k, groups[0]), AND_WORDS, OR_WORDS);
    if |groups| > 1 {
      WordsOfQueries();
      TextOfOrs(pf, k, groups[1..]);
      ClearKeyword(k.orWord, "or", OR_WORDS);
      ClearAround(AndText(k, groups[0]), k.orWord, OrText(k, groups[1..]), OR_WORDS);
    }
  }

  lemma ClearSubset(s: string, ws: set<string>, vs: set<string>)
    requires vs <= ws && Clear(s, ws)
    ensures Clear(s, vs)
  {
  }

  lemma BalancedAround(a: string, v: string, b: string)
    requires Balanced(a) && NoParentheses(v) && Balanced(b)
    ensures Balanced(a + Spaced(v) + b)
  {
    BalancedPlain(Spaced(v));
    BalancedJoin(a, Spaced(v));
    BalancedJoin(a + Spaced(v), b);
  }

  // ---- Conditions -------------------------------------------------------------------------------------------------

  lemma ParseAtom(pf: DoubleParser, k: Keywords, a: Atom)
    requires WellSpelled(k) && WellFormedAtom(pf, a)
    ensures ParsePredicate(pf, AtomText(k, a)) == Ok(AtomMeaning(pf, a))
  {
    var s := AtomText(k, a);
    assert Spaced("or") == " or " && Spaced("and") == " and " && Spaced("in") == " in ";
    TextOfAtom(pf, k, a);
    SplitNothing(s, "or");
    SplitNothing(s, "and");
    if a.Single? {
      SingleText(pf, k, a);
      FindNone(s, "in");
      ParseFromComparator(pf, a.field, a.comparator, a.literal, 0);
    } else {
      ParseListed(pf, k, a);
    }
  }

  lemma ParseListed(pf: DoubleParser, k: Keywords, a: Atom)
    requires WellSpelled(k) && WellFormedAtom(pf, a) && a.Listed?
    ensures InList(AtomText(k, a)) == Some((a.field, CommaText(a.literals)))
    ensures ParseValues(pf, SplitCommas(CommaText(a.literals))) == Ok(LiteralValues(pf, a.literals))
  {
    var f, c := a.field, CommaText(a.literals);
    assert PlainText(f) && "" + c == c;
    ParseInList(f, k.inWord, c);
    ParseCommaText(pf, "", a.literals);
    hide Clear, NoParentheses, WellFormedLiterals, CommaText, InList, ParseValues, SplitCommas;
  }

  lemma ParseInList(f: string, v: string, c: string)
    requires Lower(v) == "in" && Clear(f, ATOM_WORDS)
    ensures InList(f + Spaced(v) + ("(" + c + ")")) == Some((f, c))
  {
    var list := "(" + c + ")";
    assert Free(f, "in") && Tight(f);
    InPieces(f, v, list);
    assert list[1..|list| - 1] == c;
    hide Trim, Find, Free, Spaced, Tight;
    TakeList(f + Spaced(v) + list, f, list);
  }

  lemma InPieces(f: string, v: string, list: string)
    requires Lower(v) == "in" && Free(f, "in") && Tight(f) && Tight(list)
    ensures var s := f + Spaced(v) + list;
            Find(Lower(s), " in ") == Some(|f|) && |f| + 4 <= |s| && Trim(s[..|f|]) == f && Trim(s[|f| + 4..]) == list
  {
    hide Trim, Find, Free;
    var s := f + Spaced(v) + list;
    FindFirst(f, v, list, "in");
    TrimTight(f);
    TrimTight(list);
    assert Spaced("in") == " in " && s[..|f|] == f && s[|f| + 4..] == list;
  }

  lemma TakeList(s: string, f: string, list: string)
    requires Find(Lower(s), " in ") == Some(|f|) && |f| + 4 <= |s| && Trim(s[..|f|]) == f && Trim(s[|f| + 4..]) == list
    requires |list| >= 2 && list[0] == '(' && list[|list| - 1] == ')'
    ensures InList(s) == Some((f, list[1..|list| - 1]))
  {
    hide Trim, Find;
  }

  lemma {:induction false} ParseAnds(pf: DoubleParser, k: Keywords, atoms: seq<Atom>)
    requires WellSpelled(k) && WellFormedAtoms(pf, atoms)
    ensures ParsePredicate(pf, AndText(k, atoms)) == Ok(AndMeaning(pf, atoms))
    decreases |atoms|
  {
    hide Free, Balanced, Tight, Split, ParsePredicate, AtomText, AtomMeaning, WellFormedAtom, WellSpelled, Spaced;
    ParseAtom(pf, k, atoms[0]);
    if |atoms| > 1 {
      AndSpelled(k);
      var l, r := AtomText(k, atoms[0]), AndText(k, atoms[1..]);
      ParseAnds(pf, k, atoms[1..]);
      TextOfAnds(pf, k, atoms);
      TextOfAnds(pf, k, atoms[1..]);
      TextOfAtom(pf, k, atoms[0]);
      SplitNothing(AndText(k, atoms), "or");
      SplitClear(l, k.andWord, r, "and");
      JoinAnd(pf, AndText(k, atoms), l, r);
    }
  }

  lemma AndSpelled(k: Keywords)
    requires WellSpelled(k)
    ensures Lower(k.andWord) == "and" && Lower(k.orWord) == "or" && Word("and") && Word("or")
  {
  }

  lemma JoinAnd(pf: DoubleParser, s: string, l: string, r: string)
    requires Split(s, Spaced("or")) == None && Split(s, Spaced("and")) == Some((l, r))
    ensures ParsePredicate(pf, s)
            == Both(ParsePredicate(pf, l), ParsePredicate(pf, r), (x, y) => And(x, y))
  {
    assert Spaced("or") == " or " && Spaced("and") == " and ";
  }

  lemma JoinOr(pf: DoubleParser, s: string, l: string, r: string)
    requires Split(s, Spaced("or")) == Some((l, r))
    ensures ParsePredicate(pf, s)
            == Both(ParsePredicate(pf, l), ParsePredicate(pf, r), (x, y) => Or(x, y))
  {
    assert Spaced("or") == " or ";
  }

  lemma {:induction false} ParseOrs(pf: DoubleParser, k: Keywords, groups: seq<seq<Atom>>)
    requires WellSpelled(k) && WellFormedGroups(pf, groups)
    ensures ParsePredicate(pf, OrText(k, groups)) == Ok(OrMeaning(pf, groups))
    decreases |groups|
  {
    hide Free, Balanced, Tight, Split, ParsePredicate, AndText, AndMeaning, WellFormedAtoms, WellSpelled, Spaced;
    ParseAnds(pf, k, groups[0]);
    if |groups| > 1 {
      AndSpelled(k);
      var l, r := AndText(k, groups[0]), OrText(k, groups[1..]);
      ParseOrs(pf, k, groups[1..]);
      TextOfAnds(pf, k, groups[0]);
      TextOfOrs(pf, k, groups[1..]);
      SplitClear(l, k.orWord, r, "or");
      JoinOr(pf, OrText(k, groups), l, r);
    }
  }

  // ---- Parentheses in a condition ---------------------------------------------------------------------------

  /** The field of the first condition of a tree. */
  function FirstField(p: Predicate): string {
    match p
    case Comparison(field, _, _) => field
    case In(field, _) => field
    case And(l, _) => FirstField(l)
    case Or(l, _) => FirstField(l)
  }

  lemma {:induction false} TrimKeepsFirst(s: string)
    requires s != [] && !IsSpace(s[0])
    ensures Trim(s) != [] && Trim(s)[0] == s[0]
  {
    TrimEndKeepsFirst(s);
  }

  lemma {:induction false} TrimEndKeepsFirst(s: string)
    requires s != [] && !IsSpace(s[0])
    ensures TrimEnd(s) != [] && TrimEnd(s)[0] == s[0]
  {
    if |s| > 1 && IsSpace(s[|s| - 1]) { TrimEndKeepsFirst(s[..|s| - 1]); }
  }

  /** A comparison that starts with a parenthesis has it in its field. */
  lemma {:induction false} ComparisonField(pf: DoubleParser, s: string, n: nat)
    requires s != [] && s[0] == '(' && ParseComparisonFrom(pf, s, n).Ok?
    ensures FirstField(ParseComparisonFrom(pf, s, n).value) != []
            && FirstField(ParseComparisonFrom(pf, s, n).value)[0] == '('
    decreases |OPERATORS| - n
  {
    if n < |OPERATORS| {
      var text := OPERATORS[n].0;
      var i := Find(s, text);
      ComparatorsOrdered(n, n);
      if i.None? || (text == "=" && PartOfLonger(s, i.value)) {
        hide Find, PartOfLonger, Trim, ParseValue;
        ComparisonField(pf, s, n + 1);
      } else {
        assert s[i.value..i.value + |text|][0] == text[0];
        hide Find, PartOfLonger, Trim, ParseValue;
        TrimKeepsFirst(s[..i.value]);
      }
    }
  }

  /** A text that starts with a parenthesis and is not split is one condition, with the parenthesis in its field. */
  lemma LeafField(pf: DoubleParser, s: string)
    requires s != [] && s[0] == '(' && Split(s, " or ").None? && Split(s, " and ").None? && ParsePredicate(pf, s).Ok?
    ensures FirstField(ParsePredicate(pf, s).value) != [] && FirstField(ParsePredicate(pf, s).value)[0] == '('
  {
    if InList(s).Some? {
      var i := Find(Lower(s), " in ").value;
      assert Lower(s)[i..i + 4][0] == ' ';
      hide Find, Trim, ParseValues, SplitCommas, ParsePredicate;
      TrimKeepsFirst(s[..i]);
      InListField(pf, s);
    } else {
      hide Split, Find, Trim;
      ComparisonField(pf, s, 0);
    }
  }

  lemma InListField(pf: DoubleParser, s: string)
    requires Split(s, " or ").None? && Split(s, " and ").None? && InList(s).Some? && ParsePredicate(pf, s).Ok?
    ensures FirstField(ParsePredicate(pf, s).value) == InList(s).value.0
  {
    hide Split, InList, ParseValues, SplitCommas;
  }

  /** No field of a well-formed condition has a parenthesis. */
  lemma {:induction false} MeaningField(pf: DoubleParser, groups: seq<seq<Atom>>)
    requires WellFormedGroups(pf, groups)
    ensures FirstField(OrMeaning(pf, groups)) == groups[0][0].field && '(' !in groups[0][0].field
  {
    var a := groups[0][0];
    assert WellFormedAtoms(pf, groups[0]) && WellFormedAtom(pf, a);
    assert FirstField(AtomMeaning(pf, a)) == a.field && '(' !in a.field;
    hide WellFormedLiteral, WellFormedLiterals, Clear, AtomMeaning;
    assert FirstField(AndMeaning(pf, groups[0])) == a.field;
  }

  /** The text of a condition, whether it has one alternative or several, is balanced. */
  lemma {:induction false} OrsBalanced(pf: DoubleParser, k: Keywords, groups: seq<seq<Atom>>)
    requires WellSpelled(k) && WellFormedGroups(pf, groups)
    ensures Balanced(OrText(k, groups))
    decreases |groups|
  {
    hide Balanced, WellFormedAtoms, Clear;
    TextOfAnds(pf, k, groups[0]);
    if |groups| > 1 {
      OrsBalanced(pf, k, groups[1..]);
      ClearKeyword(k.orWord, "or", {});
      BalancedAround(AndText(k, groups[0]), k.orWord, OrText(k, groups[1..]));
    }
  }

  /** A condition in parentheses never parses to what it says: the parentheses are not grouping. */
  lemma ParenthesesAreNotGrouping(pf: DoubleParser, k: Keywords, groups: seq<seq<Atom>>)
    requires WellSpelled(k) && WellFormedGroups(pf, groups)
    ensures var r := ParsePredicate(pf, "(" + OrText(k, groups) + ")");
            r != Ok(OrMeaning(pf, groups)) && (r.Ok? ==> FirstField(r.value) != [] && FirstField(r.value)[0] == '(')
  {
    var t := OrText(k, groups);
    var s := "(" + t + ")";
    OrsBalanced(pf, k, groups);
    MeaningField(pf, groups);
    SplitBehind(t, "", " or ");
    SplitBehind(t, "", " and ");
    assert s + "" == s;
    hide ParsePredicate, OrMeaning, OrText, Balanced, FirstField, WellFormedGroups;
    if ParsePredicate(pf, s).Ok? { LeafField(pf, s); }
  }

  /** A parenthesised condition as the left operand of an AND: the operand is read wrongly, and so is the whole. */
  lemma ParenthesizedOperand(pf: DoubleParser, k: Keywords, groups: seq<seq<Atom>>, atoms: seq<Atom>)
    requires WellSpelled(k) && WellFormedGroups(pf, groups) && WellFormedAtoms(pf, atoms)
    ensures ParsePredicate(pf, "(" + OrText(k, groups) + ")" + Spaced(k.andWord) + AndText(k, atoms))
            != Ok(And(OrMeaning(pf, groups), AndMeaning(pf, atoms)))
  {
    var t, r := OrText(k, groups), AndText(k, atoms);
    var p := "(" + t + ")";
    var s := p + Spaced(k.andWord) + r;
    OrsBalanced(pf, k, groups);
    TextOfAnds(pf, k, atoms);
    NoOrBehind(t, k.andWord, r) by { AndSpelled(k); }
    AndBehind(t, k.andWord, r) by { AndSpelled(k); }
    ParenthesesAreNotGrouping(pf, k, groups);
    MeaningField(pf, groups);
    TrimTight(p);
    TrimTight(r);
    hide Split, OrMeaning, AndMeaning, OrText, AndText, Balanced, Clear, FirstField, WellFormedGroups, WellFormedAtoms;
    JoinAnd(pf, s, p, r);
    hide ParsePredicate;
  }

  /** The same for the right operand. */
  lemma ParenthesizedRight(pf: DoubleParser, k: Keywords, a: Atom, groups: seq<seq<Atom>>)
    requires WellSpelled(k) && WellFormedAtom(pf, a) && WellFormedGroups(pf, groups)
    ensures ParsePredicate(pf, AtomText(k, a) + Spaced(k.andWord) + ("(" + OrText(k, groups) + ")"))
            != Ok(And(AtomMeaning(pf, a), OrMeaning(pf, groups)))
  {
    var l, t := AtomText(k, a), OrText(k, groups);
    var p := "(" + t + ")";
    ParseAtom(pf, k, a);
    ParenthesesAreNotGrouping(pf, k, groups);
    SplitsBefore(pf, k, a, groups);
    hide Split, OrMeaning, AtomMeaning, OrText, AtomText, FirstField, WellFormedGroups, WellFormedAtom;
    JoinAnd(pf, l + Spaced(k.andWord) + p, l, p);
    hide ParsePredicate;
  }

  lemma SplitsBefore(pf: DoubleParser, k: Keywords, a: Atom, groups: seq<seq<Atom>>)
    requires WellSpelled(k) && WellFormedAtom(pf, a) && WellFormedGroups(pf, groups)
    ensures var p := "(" + OrText(k, groups) + ")";
            var s := AtomText(k, a) + Spaced(k.andWord) + p;
            Split(s, Spaced("or")) == None && Split(s, Spaced("and")) == Some((AtomText(k, a), p))
  {
    OrsBalanced(pf, k, groups);
    TextOfAtom(pf, k, a);
    ClearSubset(AtomText(k, a), LIST_WORDS, {"or", "and"});
    AndSpelled(k);
    hide Split, OrText, AtomText, Balanced, WellFormedGroups, WellFormedAtom, Clear;
    SplitsAtWord(AtomText(k, a), k.andWord, OrText(k, groups));
  }

  lemma SplitsAtWord(l: string, v: string, t: string)
    requires Lower(v) == "and" && Clear(l, {"or", "and"}) && Balanced(l) && Balanced(t)
    ensures var s := l + Spaced(v) + ("(" + t + ")");
            Split(s, Spaced("or")) == None && Split(s, Spaced("and")) == Some((l, "(" + t + ")"))
  {
    assert Words({"or"}) && Letters("and") && Word("or") && Word("and");
    ClearKeyword(v, "and", {"or"});
    assert Free(l, "or") && Free(l, "and") && Free(v, "or");
    hide Split, Balanced, Free, Clear;
    NotSplitAtEnd(l, v, t, "or");
    SplitClear(l, v, "(" + t + ")", "and");
  }

  lemma NoOrBehind(t: string, v: string, r: string)
    requires Balanced(t) && Lower(v) == "and" && Free(r, "or")
    ensures Split("(" + t + ")" + Spaced(v) + r, Spaced("or")) == None
  {
    var p, rest, kw := "(" + t + ")", Spaced(v) + r, Spaced("or");
    var s := p + rest;
    assert s == p + Spaced(v) + r && s[|p|..|s|] == rest;
    SplitBehind(t, rest, kw);
    assert Words({"or"}) && Letters("and");
    ClearKeyword(v, "and", {"or"});
    FreeJoin(v, r, "or");
    FreeIsNoHit(v + " " + r, "or");
    assert " " + (v + " " + r) == rest;
    hide Balanced, Free, Split;
    forall k: nat | |p| <= k && k + |kw| <= |s| ensures !Hit(s, k, kw) { NoHitAt(s, |p|, |s|, k, kw); }
    SplitFindsNothing(s, kw, |p|, 0);
  }

  lemma AndBehind(t: string, v: string, r: string)
    requires Balanced(t) && Lower(v) == "and" && Tight(r)
    ensures Split("(" + t + ")" + Spaced(v) + r, Spaced("and")) == Some(("(" + t + ")", r))
  {
    var p := "(" + t + ")";
    var s := p + (Spaced(v) + r);
    assert s == p + Spaced(v) + r;
    SplitBehind(t, Spaced(v) + r, Spaced("and"));
    assert s[|p|..|p| + 5] == Spaced(v) && Lower(Spaced(v)) == Spaced("and") by {
      assert forall i :: 0 <= i < 3 ==> Lower(v)[i] == "and"[i];
    }
    assert s[..|p|] == p && s[|p| + 5..] == r;
    TrimTight(p);
    TrimTight(r);
  }

  // ---- Clauses ----------------------------------------------------------------------------------------------------

  lemma WhereClause(t: string, v: string, c: string)
    requires Lower(v) == "where" && Free(t, "where") && Tight(t) && Tight(c)
    ensures var s := t + Spaced(v) + c;
            Find(Lower(s), " where ") == Some(|t|) && |t| + 7 <= |s|
            && Trim(s[..|t|]) == t && Trim(Trim(s[|t| + 7..])) == c
  {
    hide Trim, Find, Free;
    var s := t + Spaced(v) + c;
    FindFirst(t, v, c, "where");
    TrimTight(t);
    TrimTight(c);
    assert Spaced("where") == " where " && s[..|t|] == t && s[|t| + 7..] == c;
  }

  lemma TableOnly(t: string)
    requires Free(t, "where") && Tight(t)
    ensures Find(Lower(t), " where ") == None && Trim(t) == t
  {
    hide Find, Free;
    FindNone(t, "where");
    TrimTight(t);
    assert Spaced("where") == " where ";
  }

  lemma FromClear(pf: DoubleParser, k: Keywords, q: Query)
    requires WellSpelled(k) && WellFormed(pf, q)
    ensures Clear(FromText(k, q), FROM_WORDS)
  {
    hide Free, Tight, WellFormedGroups, OrText;
    WordsOfQueries();
    if q.alternatives != [] {
      TextOfOrs(pf, k, q.alternatives);
      ClearKeyword(k.whereWord, "where", FROM_WORDS);
      ClearAround(q.table, k.whereWord, OrText(k, q.alternatives), FROM_WORDS);
    }
  }

  lemma FromClause(pf: DoubleParser, k: Keywords, q: Query, limit: Option<nat>, orderBy: Option<OrderBy>)
    requires WellSpelled(k) && WellFormed(pf, q)
    ensures ParseFrom(pf, FromText(k, q), limit, orderBy)
            == Ok(SubscriptionFilter(q.table, Meaning(pf, q).condition, orderBy, limit))
  {
    assert Free(q.table, "where") && Tight(q.table) && Lower(k.whereWord) == "where";
    if q.alternatives == [] {
      hide Free, Trim, Find;
      TableOnly(q.table);
    } else {
      var c := OrText(k, q.alternatives);
      assert Tight(c) by { TextOfOrs(pf, k, q.alternatives); }
      ParseOrs(pf, k, q.alternatives);
      hide ParsePredicate, OrText, OrMeaning, Trim, Find, Free, WellFormedGroups;
      WhereClause(q.table, k.whereWord, c);
    }
  }

  lemma {:induction false} FirstSpaceIs(f: string, r: string)
    requires forall i :: 0 <= i < |f| ==> !IsSpace(f[i])
    ensures FirstSpace(f) == |f| && FirstSpace(f + " " + r) == |f|
  {
    if f != [] {
      assert (f + " " + r)[1..] == f[1..] + " " + r;
      FirstSpaceIs(f[1..], r);
    }
  }

  lemma DirectionWord(v: string)
    requires Lower(v) == "asc" || Lower(v) == "desc"
    ensures Clear(v, FROM_WORDS)
  {
    WordsOfQueries();
    assert Letters("asc") && Letters("desc");
    ClearKeyword(v, Lower(v), FROM_WORDS);
  }

  lemma DirectedText(field: string, direction: Option<string>)
    requires WellFormedOrder(field, direction)
    ensures Clear(DirectedField(field, direction), FROM_WORDS)
    ensures FirstSpace(DirectedField(field, direction)) == |field|
  {
    WordsOfQueries();
    ClearWord(field, FROM_WORDS);
    if direction.Some? {
      DirectionWord(direction.value);
      ClearJoin(field, direction.value, FROM_WORDS);
      FirstSpaceIs(field, direction.value);
    } else {
      FirstSpaceIs(field, "");
    }
  }

  lemma ReadDirection(field: string, direction: Option<string>)
    requires WellFormedOrder(field, direction)
    ensures var r := DirectedField(field, direction);
            0 < |field| <= |r| && r[..|field|] == field
            && (if Lower(WordAfter(r, |field|)) == "desc" then Desc else Asc) == DirectionOf(direction)
  {
    var r := DirectedField(field, direction);
    if direction.Some? {
      assert r[|field| + 1..] == direction.value;
      DirectionWord(direction.value);
      TrimTight(direction.value);
    } else {
      assert |Lower(WordAfter(r, |field|))| == 0;
    }
  }

  function WordAfter(r: string, i: nat): string { if i < |r| then Trim(r[i + 1..]) else [] }

  lemma TakeOrder(s: string, p: nat, r: string, i: nat)
    requires RFind(Lower(s), " order by ") == Some(p) && p + 10 <= |s| && Trim(s[p + 10..]) == r
    requires FirstSpace(r) == i > 0
    ensures ExtractOrderBy(s)
            == (s[..p], Some(OrderBy(r[..i], if Lower(WordAfter(r, i)) == "desc" then Desc else Asc)))
  {
    hide Trim, RFind, FirstSpace;
  }

  lemma OrderClause(l: string, o: string, b: string, field: string, direction: Option<string>)
    requires Lower(o) == "order" && Lower(b) == "by" && Clear(l, FROM_WORDS) && WellFormedOrder(field, direction)
    ensures var s := l + Spaced(o + " " + b) + DirectedField(field, direction);
            Clear(s, {"limit"}) && ExtractOrderBy(s) == (l, Some(OrderBy(field, DirectionOf(direction))))
  {
    var r := DirectedField(field, direction);
    DirectedText(field, direction);
    assert Free(r, "by") && Tight(r);
    OrderText(l, o, b, r);
    OrderPieces(l, o, b, r);
    ReadDirection(field, direction);
    hide Clear, Trim, RFind, Free, Tight, FirstSpace, Spaced, ExtractOrderBy, DirectedField, WellFormedOrder,
      WordAfter, DirectionOf;
    TakeOrder(l + Spaced(o + " " + b) + r, |l|, r, |field|);
  }

  lemma OrderPieces(l: string, o: string, b: string, r: string)
    requires Lower(o) == "order" && Lower(b) == "by" && Free(r, "by") && Tight(r)
    ensures var s := l + Spaced(o + " " + b) + r;
            RFind(Lower(s), " order by ") == Some(|l|) && |l| + 10 <= |s| && s[..|l|] == l && Trim(s[|l| + 10..]) == r
  {
    hide Trim, RFind, Free;
    var s := l + Spaced(o + " " + b) + r;
    RFindOrderBy(l, o, b, r);
    TrimTight(r);
    assert s[..|l|] == l && s[|l| + 10..] == r;
  }

  lemma OrderText(l: string, o: string, b: string, r: string)
    requires Lower(o) == "order" && Lower(b) == "by" && Clear(l, FROM_WORDS) && Clear(r, FROM_WORDS)
    ensures Clear(l + Spaced(o + " " + b) + r, {"limit"})
  {
    var ws := {"limit"};
    assert Word("limit") && Letters("order") && Letters("by");
    ClearKeyword(o, "order", ws);
    ClearKeyword(b, "by", ws);
    ClearJoin(o, b, ws);
    ClearAround(l, o + " " + b, r, ws);
  }

  lemma OrderedClause(pf: DoubleParser, k: Keywords, q: Query)
    requires WellSpelled(k) && WellFormed(pf, q) && Clear(FromText(k, q), FROM_WORDS)
    ensures Clear(OrderedText(k, q), {"limit"})
    ensures ExtractOrderBy(OrderedText(k, q)) == (FromText(k, q), Meaning(pf, q).orderBy)
  {
    match q.orderBy
    case None => RFindNoOrderBy(FromText(k, q));
    case Some((field, direction)) => OrderClause(FromText(k, q), k.orderWord, k.byWord, field, direction);
  }

  lemma LimitWord(n: string)
    requires ParseUsize(n).Some?
    ensures Clear(n, {"limit"})
  {
    var d := if n != [] && n[0] == '+' then n[1..] else n;
    assert AllDigits(d) && d != [];
    forall j | 0 <= j < |n| ensures !IsSpace(n[j]) { assert j > 0 ==> n[j] == d[j - (|n| - |d|)]; }
    assert Lower(n)[0] == n[0] != 'l';
    ClearWord(n, {"limit"});
  }

  lemma LimitPieces(l: string, v: string, n: string)
    requires Lower(v) == "limit" && Free(n, "limit") && Tight(n)
    ensures var s := l + Spaced(v) + n;
            RFind(Lower(s), " limit ") == Some(|l|) && |l| + 7 <= |s| && s[..|l|] == l && Trim(s[|l| + 7..]) == n
  {
    hide Trim, RFind, Free;
    var s := l + Spaced(v) + n;
    RFindLast(l, v, n, "limit");
    TrimTight(n);
    assert Spaced("limit") == " limit " && s[..|l|] == l && s[|l| + 7..] == n;
  }

  lemma TakeLimit(s: string, p: nat, n: string)
    requires RFind(Lower(s), " limit ") == Some(p) && p + 7 <= |s| && Trim(s[p + 7..]) == n && ParseUsize(n).Some?
    ensures ExtractLimit(s) == (s[..p], ParseUsize(n))
  {
    hide Trim, RFind, ParseUsize;
  }

  lemma LimitClause(l: string, v: string, n: string)
    requires Lower(v) == "limit" && Clear(l, {"limit"}) && ParseUsize(n).Some?
    ensures Clear(l + Spaced(v) + n, {})
    ensures ExtractLimit(l + Spaced(v) + n) == (l, ParseUsize(n))
  {
    LimitWord(n);
    assert Free(n, "limit") && Tight(n);
    LimitPieces(l, v, n);
    assert Tight(l + Spaced(v) + n);
    hide Trim, RFind, Free, ParseUsize, Tight, Spaced, ExtractLimit;
    TakeLimit(l + Spaced(v) + n, |l|, n);
  }

  lemma LimitedClause(pf: DoubleParser, k: Keywords, q: Query)
    requires WellSpelled(k) && WellFormed(pf, q) && Clear(OrderedText(k, q), {"limit"})
    ensures Clear(LimitedText(k, q), {})
    ensures ExtractLimit(LimitedText(k, q)) == (OrderedText(k, q), Meaning(pf, q).limit)
  {
    if q.limit.None? {
      assert Spaced("limit") == " limit ";
      RFindNone(OrderedText(k, q), "limit");
    } else {
      LimitClause(OrderedText(k, q), k.limitWord, q.limit.value);
    }
  }

  lemma LimitedTextStarts(k: Keywords, q: Query)
    ensures LimitedText(k, q) == q.table || q.table + " " <= LimitedText(k, q)
  {
  }

  lemma NotStripped(t: string, s: string)
    requires s == t || t + " " <= s
    requires !StartsWith(Lower(t + " "), "subscribe ")
    ensures !StartsWith(Lower(s), "subscribe ")
  {
    var p, u := "subscribe ", t + " ";
    if |t| < 9 {
      if s != t { assert Lower(s)[|t|] == ' ' != p[|t|]; }
    } else {
      var j :| 0 <= j < 10 && Lower(u)[j] != p[j];
      if j < |s| { assert Lower(s)[j] == Lower(u)[j]; }
    }
  }

  lemma Stripped(v: string, s: string)
    requires Lower(v) == "subscribe" && Tight(s)
    ensures Tight(v + " " + s) && StripSubscribe(v + " " + s) == s
  {
    var q := v + " " + s;
    assert |v| == 9 && LowerChar(v[0]) == 's';
    TrimTight(s);
    assert q[10..] == s;
    forall j | 0 <= j < 10 ensures Lower(q)[j] == "subscribe "[j] {
      if j < 9 { assert Lower(v)[j] == "subscribe"[j]; }
    }
    assert Lower(q)[..10] == "subscribe ";
  }

  lemma PrefixClause(pf: DoubleParser, k: Keywords, q: Query)
    requires WellSpelled(k) && WellFormed(pf, q) && Tight(LimitedText(k, q))
    ensures StripSubscribe(Trim(QueryString(k, q))) == LimitedText(k, q)
  {
    var s := LimitedText(k, q);
    if q.prefixed {
      Stripped(k.subscribeWord, s);
      TrimTight(k.subscribeWord + " " + s);
    } else {
      LimitedTextStarts(k, q);
      NotStripped(q.table, s);
      TrimTight(s);
    }
  }

  /** Printing any well-formed query, with any spelling of the keywords, and parsing it gives its meaning. */
  lemma RoundTrip(pf: DoubleParser, k: Keywords, q: Query)
    requires WellSpelled(k) && WellFormed(pf, q)
    ensures ParseQuery(pf, QueryString(k, q)) == Ok(Meaning(pf, q))
  {
    var m := Meaning(pf, q);
    FromClear(pf, k, q);
    FromClause(pf, k, q, m.limit, m.orderBy);
    OrderedClause(pf, k, q);
    LimitedClause(pf, k, q);
    PrefixClause(pf, k, q);
    hide WellFormed, WellSpelled, Meaning, Free, QueryString, LimitedText, OrderedText, FromText, StripSubscribe,
      ExtractLimit, ExtractOrderBy, ParseFrom, Trim;
  }

  // ---- Evaluation -----------------------------------------------------------------------------------------------

  ghost predicate AllHold(pf: DoubleParser, atoms: seq<Atom>, delta: RowDelta)
    requires WellFormedAtoms(pf, atoms)
  {
    forall i :: 0 <= i < |atoms| ==> Eval(AtomMeaning(pf, atoms[i]), delta)
  }

  lemma FirstHolds(pf: DoubleParser, atoms: seq<Atom>, delta: RowDelta)
    requires WellFormedAtoms(pf, atoms)
    ensures |atoms| == 1 ==> (AllHold(pf, atoms, delta) <==> Eval(AtomMeaning(pf, atoms[0]), delta))
    ensures |atoms| > 1 ==> WellFormedAtoms(pf, atoms[1..])
    ensures |atoms| > 1 ==>
              (AllHold(pf, atoms, delta) <==> Eval(AtomMeaning(pf, atoms[0]), delta) && AllHold(pf, atoms[1..], delta))
  {
    hide Eval, AtomMeaning, WellFormedAtom;
    assert forall i :: 1 <= i < |atoms| ==> atoms[i] == atoms[1..][i - 1];
  }

  lemma {:induction false} AndsEvaluate(pf: DoubleParser, atoms: seq<Atom>, delta: RowDelta)
    requires WellFormedAtoms(pf, atoms)
    ensures Eval(AndMeaning(pf, atoms), delta) <==> AllHold(pf, atoms, delta)
    decreases |atoms|
  {
    hide AtomMeaning, WellFormedAtom, AllHold;
    FirstHolds(pf, atoms, delta);
    if |atoms| > 1 { AndsEvaluate(pf, atoms[1..], delta); }
  }

  /** The parsed condition holds of a row exactly when all conditions of one alternative do. */
  lemma {:induction false} OrsEvaluate(pf: DoubleParser, groups: seq<seq<Atom>>, delta: RowDelta)
    requires WellFormedGroups(pf, groups)
    ensures Eval(OrMeaning(pf, groups), delta) <==> exists i :: 0 <= i < |groups| && AllHold(pf, groups[i], delta)
    decreases |groups|
  {
    AndsEvaluate(pf, groups[0], delta);
    if |groups| > 1 {
      OrsEvaluate(pf, groups[1..], delta);
      hide AllHold, WellFormedAtoms;
      assert forall i :: 1 <= i < |groups| ==> groups[i] == groups[1..][i - 1];
      if i :| 0 <= i < |groups[1..]| && AllHold(pf, groups[1..][i], delta) {
        assert AllHold(pf, groups[i + 1], delta);
      }
    }
  }
}
