/** The subscription query parser, over ASCII text. */
module QueryParser {
  import opened Wrappers
  import opened F64
  import opened Json
  import opened Filter
  import opened Text

  /** `Crash` stands for a slice with its bounds the wrong way round. */
  datatype ParseError = MissingTable | InvalidPredicate | InvalidNumber | Crash

  /** What the language's `f64` parser makes of a text: the parser itself is a parameter. */
  datatype DoubleLiteral = Finite(bits: Bits) | NotFinite
  type DoubleParser = string -> Option<DoubleLiteral>

  // ---- Values and comparisons -----------------------------------------------------------------------

  function Quoted(t: string, q: char): bool { t != [] && t[0] == q && t[|t| - 1] == q }

  function ParseValue(pf: DoubleParser, value: string): Result<Value, ParseError> {
    var t := Trim(value);
    if Quoted(t, '"') || Quoted(t, '\'') then
      if |t| == 1 then Err(Crash) else Ok(Str(t[1..|t| - 1]))
    else if ParseI64(t).Some? then Ok(Num(Int(ParseI64(t).value)))
    else if pf(t).Some? then
      (match pf(t).value
       case Finite(bits) => Ok(Num(Float(bits)))
       case NotFinite => Err(InvalidNumber))
    else if Lower(t) == "true" then Ok(Bool(true))
    else if Lower(t) == "false" then Ok(Bool(false))
    else Ok(Str(t))
  }

  /** The comparators in the order they are looked for. */
  const OPERATORS: seq<(string, ComparisonOp)> :=
    [(">=", Ge), ("<=", Le), ("==", Eq), ("!=", Ne), ("<>", Ne), (">", Gt), ("<", Lt), ("=", Eq)]

  /** A single `=` that is part of a longer comparator does not count. */
  predicate PartOfLonger(s: string, i: nat) {
    (0 < i <= |s| && s[i - 1] in {'>', '<', '!', '='}) || (i + 1 < |s| && s[i + 1] == '=')
  }

  function ParseComparisonFrom(pf: DoubleParser, s: string, n: nat): Result<Predicate, ParseError>
    decreases |OPERATORS| - n
  {
    if n >= |OPERATORS| then Err(InvalidPredicate)
    else
      var (text, op) := OPERATORS[n];
      var i := Find(s, text);
      if i.None? || (text == "=" && PartOfLonger(s, i.value)) then ParseComparisonFrom(pf, s, n + 1)
      else
        match ParseValue(pf, Trim(s[i.value + |text|..]))
        case Ok(v) => Ok(Comparison(Trim(s[..i.value]), op, v))
        case Err(e) => Err(e)
  }

  function ParseComparison(pf: DoubleParser, s: string): Result<Predicate, ParseError> {
    ParseComparisonFrom(pf, s, 0)
  }

  function SplitCommas(s: string): (r: seq<string>)
    ensures r != []
  {
    var i := Find(s, ",");
    if i.None? then [s] else [s[..i.value]] + SplitCommas(s[i.value + 1..])
  }

  /** The values of a list, or the first error. */
  function ParseValues(pf: DoubleParser, parts: seq<string>): Result<seq<Value>, ParseError> {
    if parts == [] then Ok([])
    else
      match ParseValue(pf, Trim(parts[0]))
      case Err(e) => Err(e)
      case Ok(v) =>
        match ParseValues(pf, parts[1..])
        case Err(e) => Err(e)
        case Ok(vs) => Ok([v] + vs)
  }

  // ---- Splitting outside parentheses ------------------------------------------------------------------

  function DepthStep(c: char, depth: nat): nat {
    if c == '(' then depth + 1 else if c == ')' && depth > 0 then depth - 1 else depth
  }

  /** Whether a keyword starts here, outside all parentheses. */
  predicate SplitsAt(s: string, kw: string, i: nat, depth: nat) {
    i < |s| && s[i] != '(' && s[i] != ')' && depth == 0 && i + |kw| <= |s| && Lower(s[i..i + |kw|]) == kw
  }

  function SplitFrom(s: string, kw: string, i: nat, depth: nat): Option<(string, string)>
    decreases |s| - i
  {
    if i >= |s| then None
    else if SplitsAt(s, kw, i, depth) then Some((Trim(s[..i]), Trim(s[i + |kw|..])))
    else SplitFrom(s, kw, i + 1, DepthStep(s[i], depth))
  }

  function Split(s: string, kw: string): Option<(string, string)> { SplitFrom(s, kw, 0, 0) }

  method SplitOnKeyword(s: string, kw: string) returns (r: Option<(string, string)>)
    ensures r == Split(s, kw)
  {
    var depth := 0;
    var i := 0;
    while i < |s|
      invariant 0 <= depth && 0 <= i <= |s|
      invariant Split(s, kw) == SplitFrom(s, kw, i, depth)
    {
      if s[i] == '(' {
        depth := depth + 1;
      } else if s[i] == ')' {
        depth := if depth > 0 then depth - 1 else 0;
      } else if depth == 0 && i + |kw| <= |s| {
        if Lower(s[i..i + |kw|]) == kw {
          return Some((Trim(s[..i]), Trim(s[i + |kw|..])));
        }
      }
      i := i + 1;
    }
    r := None;
  }

  lemma {:induction false} SplitShorter(s: string, kw: string, i: nat, depth: nat)
    requires kw != []
    ensures SplitFrom(s, kw, i, depth).Some? ==>
              var (l, r) := SplitFrom(s, kw, i, depth).value; |l| < |s| && |r| < |s|
    decreases |s| - i
  {
    if i < |s| {
      if SplitsAt(s, kw, i, depth) {
        TrimShorter(s[..i]);
        TrimShorter(s[i + |kw|..]);
      } else {
        SplitShorter(s, kw, i + 1, DepthStep(s[i], depth));
      }
    }
  }

  // ---- Predicates -------------------------------------------------------------------------------------

  function ParsePredicate(pf: DoubleParser, s: string): Result<Predicate, ParseError>
    decreases |s|
  {
    SplitShorter(s, " or ", 0, 0);
    SplitShorter(s, " and ", 0, 0);
    var orSplit, andSplit := Split(s, " or "), Split(s, " and ");
    if orSplit.Some? then
      Both(ParsePredicate(pf, orSplit.value.0), ParsePredicate(pf, orSplit.value.1), (l, r) => Or(l, r))
    else if andSplit.Some? then
      Both(ParsePredicate(pf, andSplit.value.0), ParsePredicate(pf, andSplit.value.1), (l, r) => And(l, r))
    else if InList(s).Some? then
      (match ParseValues(pf, SplitCommas(InList(s).value.1))
       case Ok(values) => Ok(In(InList(s).value.0, values))
       case Err(e) => Err(e))
    else ParseComparison(pf, s)
  }

  function Both(l: Result<Predicate, ParseError>, r: Result<Predicate, ParseError>,
                node: (Predicate, Predicate) -> Predicate): Result<Predicate, ParseError> {
    if l.Err? then l else if r.Err? then r else Ok(node(l.value, r.value))
  }

  /** The field and the text between the parentheses of an IN list. */
  function InList(s: string): Option<(string, string)> {
    var i := Find(Lower(s), " in ");
    if i.None? then None
    else
      var rest := Trim(s[i.value + 4..]);
      if |rest| >= 2 && rest[0] == '(' && rest[|rest| - 1] == ')' then
        Some((Trim(s[..i.value]), rest[1..|rest| - 1]))
      else None
  }

  // ---- Queries ------------------------------------------------------------------------------------------

  function ExtractLimit(q: string): (string, Option<nat>) {
    var pos := RFind(Lower(q), " limit ");
    if pos.None? then (q, None)
    else
      var n := ParseUsize(Trim(q[pos.value + 7..]));
      if n.Some? then (q[..pos.value], n) else (q, None)
  }

  /** The first white space, or the end. */
  function FirstSpace(s: string): (i: nat)
    ensures i <= |s|
  {
    if s == [] || IsSpace(s[0]) then 0 else 1 + FirstSpace(s[1..])
  }

  function ExtractOrderBy(q: string): (string, Option<OrderBy>) {
    var pos := RFind(Lower(q), " order by ");
    if pos.None? then (q, None)
    else
      var rest := Trim(q[pos.value + 10..]);
      var i := FirstSpace(rest);
      var field := rest[..i];
      if field == [] then (q, None)
      else
        var word := if i < |rest| then Trim(rest[i + 1..]) else [];
        (q[..pos.value], Some(OrderBy(field, if Lower(word) == "desc" then Desc else Asc)))
  }

  function ParseFrom(pf: DoubleParser, q: string, limit: Option<nat>, orderBy: Option<OrderBy>)
    : Result<SubscriptionFilter, ParseError>
  {
    var i := Find(Lower(q), " where ");
    var table := Trim(if i.Some? then q[..i.value] else q);
    if table == [] then Err(MissingTable)
    else if i.None? then Ok(SubscriptionFilter(table, None, orderBy, limit))
    else
      match ParsePredicate(pf, Trim(Trim(q[i.value + 7..])))
      case Ok(p) => Ok(SubscriptionFilter(table, Some(p), orderBy, limit))
      case Err(e) => Err(e)
  }

  function StripSubscribe(q: string): string {
    if StartsWith(Lower(q), "subscribe ") then Trim(q[10..]) else q
  }

  function ParseQuery(pf: DoubleParser, query: string): Result<SubscriptionFilter, ParseError> {
    var normalized := StripSubscribe(Trim(query));
    var (withoutLimit, limit) := ExtractLimit(normalized);
    var (withoutOrder, orderBy) := ExtractOrderBy(withoutLimit);
    ParseFrom(pf, withoutOrder, limit, orderBy)
  }
}
