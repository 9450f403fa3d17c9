/** Filters as values: printing one as a query and parsing the query gives back the same filter. */
module FilterPrinter {
  import opened Wrappers
  import opened Json
  import opened Filter
  import opened QueryParser
  import opened Text
  import opened QueryText
  import opened QueryRoundTrip

  // ---- Literals -----------------------------------------------------------------------------------------------

  function Digit(d: nat): char
    requires d < 10
  {
    ('0' as int + d) as char
  }

  function Decimal(n: nat): string {
    if n < 10 then [Digit(n)] else Decimal(n / 10) + [Digit(n % 10)]
  }

  function IntText(i: int): string { if i < 0 then "-" + Decimal(-i) else Decimal(i) }

  function LiteralText(v: Value): string {
    match v
    case Str(s) => "'" + s + "'"
    case Num(Int(i)) => IntText(i)
    case Bool(b) => if b then "true" else "false"
    case _ => ""
  }

  /** Doubles are left to the double parser; null, arrays and objects have no literal. */
  predicate Printable(v: Value) {
    match v
    case Str(_) => true
    case Num(Int(i)) => -0x8000_0000_0000_0000 <= i < 0x8000_0000_0000_0000
    case Bool(_) => true
    case _ => false
  }

  /** The two boolean words are not numbers. */
  predicate KnowsBooleans(pf: DoubleParser) { pf("true") == None && pf("false") == None }

  lemma {:induction false} DecimalReads(n: nat)
    ensures Decimal(n) != [] && AllDigits(Decimal(n)) && DigitsValue(Decimal(n)) == n
  {
    if n >= 10 {
      DecimalReads(n / 10);
      assert Decimal(n)[..|Decimal(n)| - 1] == Decimal(n / 10);
    }
  }

  lemma IntReads(i: int)
    requires -0x8000_0000_0000_0000 <= i < 0x8000_0000_0000_0000
    ensures ParseI64(IntText(i)) == Some(i) && Tight(IntText(i))
    ensures IntText(i)[0] != '"' && IntText(i)[0] != '\''
  {
    var d := Decimal(if i < 0 then -i else i);
    DecimalReads(if i < 0 then -i else i);
    hide Decimal, DigitsValue;
    assert IsDigit(d[0]) && IsDigit(d[|d| - 1]);
    if i < 0 { assert IntText(i)[1..] == d; }
  }

  /** The text of a value is read back as that value: 64-bit integers, booleans and any string in quotes. */
  lemma LiteralReads(pf: DoubleParser, v: Value)
    requires Printable(v) && KnowsBooleans(pf)
    ensures ParseValue(pf, LiteralText(v)) == Ok(v)
  {
    match v
    case Str(s) => QuotedReads(pf, s);
    case Num(Int(i)) =>
      IntReads(i);
      TrimTight(IntText(i));
      hide ParseI64, IntText, Trim;
    case Bool(b) =>
      BooleanWord(b);
      hide ParseI64, Trim;
  }

  lemma QuotedReads(pf: DoubleParser, s: string)
    ensures ParseValue(pf, "'" + s + "'") == Ok(Str(s))
  {
    hide ParseI64;
    var t := "'" + s + "'";
    TrimTight(t);
    assert t[1..|t| - 1] == s;
  }

  lemma BooleanWord(b: bool)
    ensures var t := LiteralText(Bool(b)); Trim(t) == t && ParseI64(t) == None && Lower(t) == t
  {
    var t := LiteralText(Bool(b));
    TrimTight(t);
    assert !IsDigit(t[0]);
  }

  /** A value that is a single quote character makes the parser slice with its bounds crossed, nothing else does. */
  lemma LoneQuoteCrashes(pf: DoubleParser, text: string)
    ensures ParseValue(pf, text) == Err(Crash) <==> Trim(text) == "'" || Trim(text) == "\""
  {
  }

  /** A query whose condition compares with a single quote character crashes the parser. */
  lemma LoneQuoteQueryCrashes(pf: DoubleParser, table: string, field: string)
    requires Clear(table, OR_WORDS) && !StartsWith(Lower(table + " "), "subscribe ")
    requires PlainText(field) && NoOperators(field)
    ensures ParseQuery(pf, table + Spaced("WHERE") + (field + Spaced("=") + "'")) == Err(Crash)
  {
    var c := field + Spaced("=") + "'";
    LoneQuoteCondition(pf, field);
    WhereCondition(pf, table, "WHERE", c) by { assert Lower("WHERE") == "where"; }
    hide Clear, ParsePredicate, PlainText, NoOperators, Spaced, ParseQuery;
  }

  /** A query of a table and a condition without other clauses: the condition decides. */
  lemma WhereCondition(pf: DoubleParser, table: string, v: string, c: string)
    requires Lower(v) == "where" && Clear(table, OR_WORDS) && Clear(c, ATOM_WORDS)
    requires !StartsWith(Lower(table + " "), "subscribe ") && ParsePredicate(pf, c).Err?
    ensures ParseQuery(pf, table + Spaced(v) + c) == Err(ParsePredicate(pf, c).error)
  {
    var q := table + Spaced(v) + c;
    WordsOfQueries();
    ClearKeyword(v, "where", FROM_WORDS);
    ClearAround(table, v, c, FROM_WORDS);
    assert Tight(table) && Free(table, "where") && Tight(c) && Clear(q, FROM_WORDS) && table + " " <= q;
    hide Clear, Free, Find, Trim, ParsePredicate;
    WhereClause(table, v, c);
    NotStripped(table, q);
    hide Spaced, Tight;
    OnlyFrom(pf, q);
  }

  lemma OnlyFrom(pf: DoubleParser, q: string)
    requires Clear(q, FROM_WORDS) && !StartsWith(Lower(q), "subscribe ")
    ensures ParseQuery(pf, q) == ParseFrom(pf, q, None, None)
  {
    assert Free(q, "by") && Free(q, "limit") && Spaced("limit") == " limit ";
    RFindNone(q, "limit");
    RFindNoOrderBy(q);
    TrimTight(q);
    hide Clear, Free, RFind, Trim, ParseFrom;
  }

  lemma LoneQuoteCondition(pf: DoubleParser, field: string)
    requires PlainText(field) && NoOperators(field)
    ensures var c := field + Spaced("=") + "'";
            Clear(c, ATOM_WORDS) && ParsePredicate(pf, c) == Err(Crash)
  {
    var c := field + Spaced("=") + "'";
    WordsOfQueries();
    ComparatorClear(7);
    forall w | w in ATOM_WORDS ensures Lower("'") != w { assert Lower("'")[0] == '\'' != w[0]; }
    ClearWord("'", ATOM_WORDS);
    ClearAround(field, "=", "'", ATOM_WORDS);
    assert Free(c, "or") && Free(c, "and") && Free(c, "in") && Tight(field) && Tight("'") && NoOperators("'");
    hide Clear, Free, NoParentheses;
    NotSplitAtAll(pf, c);
    TrimTight("'");
    LoneQuoteCrashes(pf, "'");
    ParseFromComparator(pf, field, 7, "'", 0);
    hide ParseComparisonFrom, ParseValue, Split, Find, Tight, ParsePredicate;
  }

  lemma NotSplitAtAll(pf: DoubleParser, c: string)
    requires Free(c, "or") && Free(c, "and") && Free(c, "in")
    ensures ParsePredicate(pf, c) == ParseComparisonFrom(pf, c, 0)
  {
    hide Free;
    SplitNothing(c, "or");
    SplitNothing(c, "and");
    FindNone(c, "in");
    assert Spaced("or") == " or " && Spaced("and") == " and " && Spaced("in") == " in ";
    hide ParseComparisonFrom, Split, Find;
  }

  // ---- Filters --------------------------------------------------------------------------------------------------

  predicate IsAtom(p: Predicate) { p.Comparison? || p.In? }

  predicate IsAnds(p: Predicate) { IsAtom(p) || (p.And? && IsAtom(p.left) && IsAnds(p.right)) }

  /** An OR of ANDs, both nested to the right. */
  predicate IsOrs(p: Predicate) { IsAnds(p) || (p.Or? && IsAnds(p.left) && IsOrs(p.right)) }

  function ComparatorOf(op: ComparisonOp): Comparator {
    match op case Ge => 0 case Le => 1 case Ne => 3 case Gt => 5 case Lt => 6 case Eq => 7
  }

  function LiteralTexts(vs: seq<Value>): seq<string> {
    if vs == [] then [] else [LiteralText(vs[0])] + LiteralTexts(vs[1..])
  }

  function AtomOf(p: Predicate): Atom
    requires IsAtom(p)
  {
    match p
    case Comparison(field, op, value) => Single(field, ComparatorOf(op), LiteralText(value))
    case In(field, values) => Listed(field, LiteralTexts(values))
  }

  function AtomsOf(p: Predicate): seq<Atom>
    requires IsAnds(p)
  {
    if IsAtom(p) then [AtomOf(p)] else [AtomOf(p.left)] + AtomsOf(p.right)
  }

  function GroupsOf(p: Predicate): seq<seq<Atom>>
    requires IsOrs(p)
  {
    if IsAnds(p) then [AtomsOf(p)] else [AtomsOf(p.left)] + GroupsOf(p.right)
  }

  function QueryOf(f: SubscriptionFilter, prefixed: bool): Query
    requires f.condition.Some? ==> IsOrs(f.condition.value)
  {
    Query(prefixed, f.table,
          if f.condition.None? then [] else GroupsOf(f.condition.value),
          if f.orderBy.None? then None
          else Some((f.orderBy.value.field, Some(if f.orderBy.value.direction == Desc then "DESC" else "ASC"))),
          if f.limit.None? then None else Some(Decimal(f.limit.value)))
  }

  predicate PrintableAtoms(p: Predicate) {
    match p
    case Comparison(_, _, value) => Printable(value)
    case In(_, values) => forall v :: v in values ==> Printable(v)
    case And(l, r) => PrintableAtoms(l) && PrintableAtoms(r)
    case Or(l, r) => PrintableAtoms(l) && PrintableAtoms(r)
  }

  predicate PrintableFilter(f: SubscriptionFilter) {
    (f.condition.Some? ==> IsOrs(f.condition.value) && PrintableAtoms(f.condition.value))
    && (f.limit.Some? ==> f.limit.value < 0x1_0000_0000_0000_0000)
  }

  lemma {:induction false} ValuesRead(pf: DoubleParser, vs: seq<Value>)
    requires KnowsBooleans(pf) && (forall v :: v in vs ==> Printable(v)) && WellFormedLiterals(pf, LiteralTexts(vs))
    ensures LiteralValues(pf, LiteralTexts(vs)) == vs
    decreases |vs|
  {
    hide WellFormedLiterals, LiteralText, ParseValue, Printable, Trim;
    if vs != [] {
      var ts := LiteralTexts(vs);
      assert ts[0] == LiteralText(vs[0]) && ts[1..] == LiteralTexts(vs[1..]);
      LiteralReads(pf, vs[0]);
      FirstLiteral(pf, "", ts);
      ValuesRead(pf, vs[1..]);
    }
  }

  lemma AtomReads(pf: DoubleParser, p: Predicate)
    requires KnowsBooleans(pf) && IsAtom(p) && PrintableAtoms(p) && WellFormedAtom(pf, AtomOf(p))
    ensures AtomMeaning(pf, AtomOf(p)) == p
  {
    match p
    case Comparison(_, _, value) => LiteralReads(pf, value);
    case In(_, values) => ValuesRead(pf, values);
  }

  lemma {:induction false} AtomsRead(pf: DoubleParser, p: Predicate)
    requires KnowsBooleans(pf) && IsAnds(p) && PrintableAtoms(p) && WellFormedAtoms(pf, AtomsOf(p))
    ensures AndMeaning(pf, AtomsOf(p)) == p
    decreases p
  {
    hide WellFormedAtom, AtomOf, AtomMeaning;
    assert WellFormedAtom(pf, AtomsOf(p)[0]);
    if IsAtom(p) {
      AtomReads(pf, p);
    } else {
      AtomReads(pf, p.left);
      assert AtomsOf(p)[1..] == AtomsOf(p.right);
      AtomsRead(pf, p.right);
    }
  }

  lemma {:induction false} GroupsRead(pf: DoubleParser, p: Predicate)
    requires KnowsBooleans(pf) && IsOrs(p) && PrintableAtoms(p) && WellFormedGroups(pf, GroupsOf(p))
    ensures OrMeaning(pf, GroupsOf(p)) == p
    decreases p
  {
    hide WellFormedAtoms, AtomsOf, AndMeaning;
    assert WellFormedAtoms(pf, GroupsOf(p)[0]);
    if IsAnds(p) {
      AtomsRead(pf, p);
    } else {
      AtomsRead(pf, p.left);
      assert GroupsOf(p)[1..] == GroupsOf(p.right);
      GroupsRead(pf, p.right);
    }
  }

  lemma LimitReads(n: nat)
    requires n < 0x1_0000_0000_0000_0000
    ensures ParseUsize(Decimal(n)) == Some(n)
  {
    DecimalReads(n);
    assert IsDigit(Decimal(n)[0]);
  }

  lemma QueryMeans(pf: DoubleParser, f: SubscriptionFilter, prefixed: bool)
    requires KnowsBooleans(pf) && PrintableFilter(f) && WellFormed(pf, QueryOf(f, prefixed))
    ensures Meaning(pf, QueryOf(f, prefixed)) == f
  {
    hide WellFormedGroups, OrMeaning, ParseUsize, Decimal, Clear, IsOrs, PrintableAtoms, WellFormedOrder, KnowsBooleans;
    if f.condition.Some? { GroupsRead(pf, f.condition.value); }
    if f.limit.Some? { LimitReads(f.limit.value); }
    assert Lower("DESC") == "desc" && Lower("ASC") != "desc" by { assert Lower("ASC")[0] == 'a'; }
  }

  /** Print, then parse: the same filter, with the SUBSCRIBE prefix or without it. */
  lemma FilterRoundTrip(pf: DoubleParser, k: Keywords, f: SubscriptionFilter, prefixed: bool)
    requires KnowsBooleans(pf) && WellSpelled(k) && PrintableFilter(f) && WellFormed(pf, QueryOf(f, prefixed))
    ensures ParseQuery(pf, QueryString(k, QueryOf(f, prefixed))) == Ok(f)
  {
    hide ParseQuery, QueryString, QueryOf, WellFormed, WellSpelled, Meaning, KnowsBooleans;
    assert f.condition.Some? ==> IsOrs(f.condition.value);
    RoundTrip(pf, k, QueryOf(f, prefixed));
    QueryMeans(pf, f, prefixed);
  }
}
