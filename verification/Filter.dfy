/** Subscription filters and how they decide whether a row delta is delivered. */
module Filter {
  import opened Wrappers
  import opened F64
  import opened Json

  datatype ComparisonOp = Eq | Ne | Gt | Lt | Ge | Le

  datatype Predicate =
    | Comparison(field: string, op: ComparisonOp, value: Value)
    | In(field: string, values: seq<Value>)
    | And(left: Predicate, right: Predicate)
    | Or(left: Predicate, right: Predicate)

  datatype SortDirection = Asc | Desc
  datatype OrderBy = OrderBy(field: string, direction: SortDirection)

  datatype SubscriptionFilter = SubscriptionFilter(
    table: string, condition: Option<Predicate>, orderBy: Option<OrderBy>, limit: Option<nat>)

  /** One row operation: the operation is "insert", "update", "delete" or "initial_snapshot". */
  datatype RowDelta = RowDelta(table: string, operation: string, rowKey: string, data: Option<Value>)

  // ---- Comparing numbers --------------------------------------------------------------------------

  datatype Ordering = Lesser | Same | Greater

  function CompareInt(a: int, b: int): Ordering {
    if a < b then Lesser else if a == b then Same else Greater
  }

  function Reverse(o: Ordering): Ordering {
    match o case Lesser => Greater case Same => Same case Greater => Lesser
  }

  /** How many low bits of `n` a 53-bit significand has no room for. */
  function Excess(n: nat): nat { if n < 2 * TWO_52 then 0 else 1 + Excess(n / 2) }

  /** `n as f64` for a `u64`: round to nearest, ties to even. */
  function RoundNat(n: nat): nat {
    var unit := Pow2(Excess(n));
    var q, r := n / unit, n % unit;
    if 2 * r > unit || (2 * r == unit && q % 2 == 1) then (q + 1) * unit else q * unit
  }

  function AsDouble(i: int): int { if i >= 0 then RoundNat(i) else -(RoundNat(-i) as int) }

  /** An integer converted to a double, scaled like `Scaled`. */
  function ScaledInt(i: int): int { AsDouble(i) * Pow2(1074) }

  /** Two integers compare exactly; as soon as one side is a double, both do as doubles. */
  function CompareNumber(a: Number, b: Number): Ordering {
    match (a, b)
    case (Int(i), Int(j)) => CompareInt(i, j)
    case (Int(i), Float(y)) => CompareInt(ScaledInt(i), Scaled(y))
    case (Float(x), Int(j)) => CompareInt(Scaled(x), ScaledInt(j))
    case (Float(x), Float(y)) => CompareInt(Scaled(x), Scaled(y))
  }

  // ---- Evaluation ---------------------------------------------------------------------------------

  function Compare(op: ComparisonOp, actual: Option<Value>, expected: Value): bool {
    if actual.None? then false
    else
      match (op, actual.value)
      case (Eq, Str(s)) => expected.Str? && s == expected.s
      case (Ne, Str(s)) => expected.Str? && s != expected.s
      case (Eq, Num(n)) => expected.Num? && Equal(Num(n), expected)
      case (Ne, Num(n)) => expected.Num? && !Equal(Num(n), expected)
      case (Gt, Num(n)) => expected.Num? && CompareNumber(n, expected.n).Greater?
      case (Lt, Num(n)) => expected.Num? && CompareNumber(n, expected.n).Lesser?
      case (Ge, Num(n)) => expected.Num? && !CompareNumber(n, expected.n).Lesser?
      case (Le, Num(n)) => expected.Num? && !CompareNumber(n, expected.n).Greater?
      case (Eq, Bool(b)) => expected.Bool? && b == expected.b
      case (Ne, Bool(b)) => expected.Bool? && b != expected.b
      case _ => false
  }

  /** The pseudo-field `row_key` is the key of the delta, every other field is looked up in the row. */
  function ExtractField(delta: RowDelta, field: string): Option<Value> {
    if field == "row_key" then Some(Str(delta.rowKey))
    else if delta.data.None? then None
    else Field(delta.data.value, field)
  }

  function Contains(values: seq<Value>, v: Value): bool {
    exists i :: 0 <= i < |values| && Equal(values[i], v)
  }

  function Eval(p: Predicate, delta: RowDelta): bool {
    match p
    case Comparison(field, op, value) => Compare(op, ExtractField(delta, field), value)
    case In(field, values) =>
      var actual := ExtractField(delta, field);
      actual.Some? && Contains(values, actual.value)
    case And(l, r) => Eval(l, delta) && Eval(r, delta)
    case Or(l, r) => Eval(l, delta) || Eval(r, delta)
  }

  /** A delete carries no row, so it goes to every subscriber of the table. */
  function Matches(f: SubscriptionFilter, delta: RowDelta): bool {
    f.table == delta.table
    && (delta.operation == "delete" || f.condition.None? || Eval(f.condition.value, delta))
  }

  /** The delta a row of the initial snapshot is filtered as. */
  function SnapshotDelta(table: string, key: string, row: Value): RowDelta {
    RowDelta(table, "initial_snapshot", key, Some(row))
  }
}
