/** Table schemas: filling in defaults and checking the types of a row. */
module Schema {
  import opened Wrappers
  import opened F64
  import opened Json

  datatype ColumnType = StringColumn | I64Column | F64Column | BoolColumn | BytesColumn | AnyColumn

  /** The default is the value its text stands for. */
  datatype Column = Column(name: string, columnType: ColumnType, default: Option<Value>, required: bool)

  datatype SchemaError = NullColumn(name: string) | MissingColumn(name: string) | WrongType(name: string)

  type Fields = map<string, Value>

  /** The cast of an integer to a double. */
  type Cast = int -> Bits

  function Accepts(t: ColumnType, v: Value): bool {
    match t
    case StringColumn => v.Str?
    case I64Column => v.Num? && v.n.Int?
    case F64Column => v.Num? && v.n.Float?
    case BoolColumn => v.Bool?
    case BytesColumn => v.Str? || v.Arr?
    case AnyColumn => true
  }

  /** Only an integer of `i64` in a double column is converted. */
  function Coerce(cast: Cast, t: ColumnType, v: Value): Option<Value> {
    match (t, v)
    case (F64Column, Num(Int(i))) =>
      if -0x8000_0000_0000_0000 <= i < 0x8000_0000_0000_0000 then Some(Num(Float(cast(i)))) else None
    case (F64Column, Num(Float(_))) => Some(v)
    case _ => None
  }

  predicate NullOrMissing(fields: Fields, name: string) { name !in fields || fields[name] == Null }

  predicate HasDefault(c: Column) { c.default.Some? && c.default.value != Null }

  predicate MustHave(c: Column) { c.required && c.columnType != AnyColumn }

  // ---- First loop: defaults -------------------------------------------------------------------------------

  function Fill(c: Column, fields: Fields): Result<Fields, SchemaError> {
    if !NullOrMissing(fields, c.name) then Ok(fields)
    else if HasDefault(c) then Ok(fields[c.name := c.default.value])
    else if MustHave(c) then Err(if c.name in fields then NullColumn(c.name) else MissingColumn(c.name))
    else Ok(fields)
  }

  function FillAll(columns: seq<Column>, fields: Fields): Result<Fields, SchemaError> {
    if columns == [] then Ok(fields)
    else
      match Fill(columns[0], fields)
      case Err(e) => Err(e)
      case Ok(filled) => FillAll(columns[1..], filled)
  }

  /** Filling again would change nothing here. */
  predicate Settled(c: Column, fields: Fields) {
    !NullOrMissing(fields, c.name) || (!HasDefault(c) && !MustHave(c))
  }

  /** Filling only adds values where there was none. */
  ghost predicate Extends(columns: seq<Column>, before: Fields, after: Fields) {
    && (forall k :: !NullOrMissing(before, k) ==> k in after && after[k] == before[k])
    && (forall k :: k in before ==> k in after)
    && (forall k :: (k in after) != (k in before) || (k in after && after[k] != before[k]) ==>
          exists c :: c in columns && c.name == k && HasDefault(c) && k in after && after[k] == c.default.value)
  }

  lemma {:induction false} FillSettles(columns: seq<Column>, fields: Fields)
    requires FillAll(columns, fields).Ok?
    ensures var after := FillAll(columns, fields).value;
            Extends(columns, fields, after) && forall c :: c in columns ==> Settled(c, after)
    decreases |columns|
  {
    if columns != [] {
      var c, filled := columns[0], Fill(columns[0], fields).value;
      FillSettles(columns[1..], filled);
      var after := FillAll(columns, fields).value;
      assert Settled(c, filled);
      assert Settled(c, after);
      forall k | (k in after) != (k in fields) || (k in after && after[k] != fields[k])
        ensures exists d :: d in columns && d.name == k && HasDefault(d) && k in after && after[k] == d.default.value
      {
        if (k in after) != (k in filled) || (k in after && after[k] != filled[k]) {
          var d :| d in columns[1..] && d.name == k && HasDefault(d) && k in after && after[k] == d.default.value;
          assert d in columns;
        } else {
          assert c in columns && k == c.name;
        }
      }
      forall d | d in columns ensures Settled(d, after) {
        if d != c { assert d in columns[1..]; }
      }
    }
  }

  lemma {:induction false} SettledFillsNothing(columns: seq<Column>, fields: Fields)
    requires forall c :: c in columns ==> Settled(c, fields)
    ensures FillAll(columns, fields) == Ok(fields)
    decreases |columns|
  {
    if columns != [] {
      assert Settled(columns[0], fields);
      SettledFillsNothing(columns[1..], fields);
    }
  }

  // ---- Second loop: types ----------------------------------------------------------------------------------

  /** With repeated names the last column counts. */
  function ColumnFor(columns: seq<Column>, name: string): Option<Column> {
    if columns == [] then None
    else if columns[|columns| - 1].name == name then Some(columns[|columns| - 1])
    else ColumnFor(columns[..|columns| - 1], name)
  }

  /** The fields the table engine injects are not checked. */
  predicate Internal(name: string) { name == "row_key" || name == "shard_id" }

  function CheckField(cast: Cast, columns: seq<Column>, name: string, v: Value): Option<Value> {
    var c := ColumnFor(columns, name);
    if Internal(name) || c.None? || v == Null || Accepts(c.value.columnType, v) then Some(v)
    else Coerce(cast, c.value.columnType, v)
  }

  predicate AllChecked(cast: Cast, columns: seq<Column>, fields: Fields) {
    forall k :: k in fields ==> CheckField(cast, columns, k, fields[k]).Some?
  }

  function Checked(cast: Cast, columns: seq<Column>, fields: Fields): Fields
    requires AllChecked(cast, columns, fields)
  {
    map k | k in fields :: CheckField(cast, columns, k, fields[k]).value
  }

  lemma CheckFieldStable(cast: Cast, columns: seq<Column>, name: string, v: Value)
    requires CheckField(cast, columns, name, v).Some?
    ensures var w := CheckField(cast, columns, name, v).value;
            CheckField(cast, columns, name, w) == Some(w) && (w == Null <==> v == Null)
  {
  }

  // ---- The whole check ----------------------------------------------------------------------------------------

  /** What normalising a row can return. The type errors of several fields compete, any of them may be reported. */
  ghost predicate Normalises(cast: Cast, columns: seq<Column>, value: Value, r: Result<Value, SchemaError>) {
    if !value.Obj? then r == Ok(value)
    else
      match FillAll(columns, value.fields)
      case Err(e) => r == Err(e)
      case Ok(filled) =>
        if AllChecked(cast, columns, filled) then r == Ok(Obj(Checked(cast, columns, filled)))
        else r.Err? && r.error.WrongType? && r.error.name in filled
             && CheckField(cast, columns, r.error.name, filled[r.error.name]).None?
  }

  method ValidateAndFill(cast: Cast, columns: seq<Column>, value: Value) returns (r: Result<Value, SchemaError>)
    ensures Normalises(cast, columns, value, r)
  {
    if !value.Obj? {
      return Ok(value);
    }
    var fields := value.fields;
    var i := 0;
    while i < |columns|
      invariant i <= |columns|
      invariant FillAll(columns, value.fields) == FillAll(columns[i..], fields)
    {
      var c := columns[i];
      if NullOrMissing(fields, c.name) {
        if HasDefault(c) {
          fields := fields[c.name := c.default.value];
        } else if MustHave(c) {
          return Err(if c.name in fields then NullColumn(c.name) else MissingColumn(c.name));
        }
      }
      i := i + 1;
    }
    ghost var filled := fields;
    var todo := fields.Keys;
    while todo != {}
      invariant todo <= fields.Keys == filled.Keys
      invariant forall k :: k in todo ==> fields[k] == filled[k]
      invariant forall k :: k in filled && k !in todo ==> CheckField(cast, columns, k, filled[k]) == Some(fields[k])
      decreases |todo|
    {
      var k :| k in todo;
      var v := CheckField(cast, columns, k, fields[k]);
      if v.None? {
        return Err(WrongType(k));
      }
      fields := fields[k := v.value];
      todo := todo - {k};
    }
    assert AllChecked(cast, columns, filled);
    assert fields == Checked(cast, columns, filled);
    r := Ok(Obj(fields));
  }

  // ---- What normalising a row achieves -----------------------------------------------------------------------

  lemma CheckedSettled(cast: Cast, columns: seq<Column>, filled: Fields)
    requires AllChecked(cast, columns, filled) && forall c :: c in columns ==> Settled(c, filled)
    ensures var after := Checked(cast, columns, filled);
            AllChecked(cast, columns, after) && Checked(cast, columns, after) == after
            && forall c :: c in columns ==> Settled(c, after)
  {
    var after := Checked(cast, columns, filled);
    forall k | k in filled
      ensures CheckField(cast, columns, k, after[k]) == Some(after[k]) && (after[k] == Null <==> filled[k] == Null)
    {
      CheckFieldStable(cast, columns, k, filled[k]);
    }
    hide CheckField;
    forall c | c in columns ensures Settled(c, after) { assert Settled(c, filled); }
  }

  /** Normalising a normalised row gives it back. */
  lemma NormalisingIsIdempotent(cast: Cast, columns: seq<Column>, value: Value, once: Value,
                                twice: Result<Value, SchemaError>)
    requires Normalises(cast, columns, value, Ok(once)) && Normalises(cast, columns, once, twice)
    ensures twice == Ok(once)
  {
    if value.Obj? {
      var filled := FillAll(columns, value.fields).value;
      FillSettles(columns, value.fields);
      CheckedSettled(cast, columns, filled);
      SettledFillsNothing(columns, once.fields);
    }
  }

  lemma {:induction false} ColumnForIs(columns: seq<Column>, name: string)
    ensures var c := ColumnFor(columns, name);
            if c.Some? then c.value in columns && c.value.name == name else forall d :: d in columns ==> d.name != name
    decreases |columns|
  {
    if columns != [] && columns[|columns| - 1].name != name {
      ColumnForIs(columns[..|columns| - 1], name);
    }
  }

  /** Every present typed column is acceptable, every required one is there, and nothing else has changed. */
  lemma NormalisedRow(cast: Cast, columns: seq<Column>, value: Value, after: Value)
    requires value.Obj? && Normalises(cast, columns, value, Ok(after))
    ensures after.Obj?
    ensures forall k :: k in after.fields && after.fields[k] != Null && !Internal(k) && ColumnFor(columns, k).Some? ==>
              Accepts(ColumnFor(columns, k).value.columnType, after.fields[k])
    ensures forall c :: c in columns && MustHave(c) ==> !NullOrMissing(after.fields, c.name)
    ensures forall k :: k in value.fields ==> k in after.fields
    ensures forall k :: (forall c :: c in columns ==> c.name != k) ==>
              (k in after.fields <==> k in value.fields) && (k in value.fields ==> after.fields[k] == value.fields[k])
    ensures forall k :: !NullOrMissing(value.fields, k) ==>
              Some(after.fields[k]) == CheckField(cast, columns, k, value.fields[k])
  {
    var filled := FillAll(columns, value.fields).value;
    FillSettles(columns, value.fields);
    CheckedSettled(cast, columns, filled);
    forall k ensures (forall c :: c in columns ==> c.name != k) ==> ColumnFor(columns, k).None? {
      ColumnForIs(columns, k);
    }
    forall c | c in columns && MustHave(c) ensures !NullOrMissing(after.fields, c.name) {
      assert Settled(c, after.fields);
    }
  }

  // ---- Exactly which rows pass ---------------------------------------------------------------------------------

  ghost predicate DistinctColumns(columns: seq<Column>) {
    forall i, j :: 0 <= i < j < |columns| ==> columns[i].name != columns[j].name
  }

  /** The value a column ends up with before its type is looked at. */
  function Given(c: Column, fields: Fields): Value {
    if !NullOrMissing(fields, c.name) then fields[c.name] else if HasDefault(c) then c.default.value else Null
  }

  predicate ColumnPasses(cast: Cast, c: Column, fields: Fields) {
    var v := Given(c, fields);
    if v == Null then !MustHave(c)
    else Internal(c.name) || Accepts(c.columnType, v) || Coerce(cast, c.columnType, v).Some?
  }

  lemma {:induction false} FillGives(columns: seq<Column>, fields: Fields)
    requires DistinctColumns(columns)
    ensures FillAll(columns, fields).Ok? <==> forall c :: c in columns && Given(c, fields) == Null ==> !MustHave(c)
    ensures FillAll(columns, fields).Ok? ==>
              var after := FillAll(columns, fields).value;
              forall c :: c in columns ==>
                if c.name in after then after[c.name] == Given(c, fields) else Given(c, fields) == Null
    decreases |columns|
  {
    if columns != [] {
      var c, rest := columns[0], columns[1..];
      forall d | d in rest ensures d in columns && d.name != c.name {
        var i :| 0 <= i < |rest| && rest[i] == d;
        assert columns[i + 1] == d;
      }
      if Fill(c, fields).Ok? {
        var filled := Fill(c, fields).value;
        FillGives(rest, filled);
        forall d | d in rest ensures Given(d, filled) == Given(d, fields) {}
        if FillAll(columns, fields).Ok? { FillKeepsOthers(rest, filled, c.name); }
        assert forall d :: d in columns ==> d == c || d in rest;
      } else {
        assert c in columns && Given(c, fields) == Null;
      }
    }
  }

  lemma FillKeepsOthers(columns: seq<Column>, fields: Fields, name: string)
    requires FillAll(columns, fields).Ok? && forall c :: c in columns ==> c.name != name
    ensures var after := FillAll(columns, fields).value;
            (name in after <==> name in fields) && (name in fields ==> after[name] == fields[name])
  {
    FillSettles(columns, fields);
  }

  /** A row passes if and only if each column of the schema does. */
  lemma PassesIffColumnsPass(cast: Cast, columns: seq<Column>, value: Value, r: Result<Value, SchemaError>)
    requires value.Obj? && DistinctColumns(columns) && Normalises(cast, columns, value, r)
    ensures r.Ok? <==> forall c :: c in columns ==> ColumnPasses(cast, c, value.fields)
  {
    FillGives(columns, value.fields);
    if FillAll(columns, value.fields).Ok? {
      var filled := FillAll(columns, value.fields).value;
      forall k ensures CheckField(cast, columns, k, if k in filled then filled[k] else Null).Some?
                       <==> forall c :: c in columns && c.name == k ==> ColumnPasses(cast, c, value.fields)
      {
        ColumnForIs(columns, k);
        if ColumnFor(columns, k).Some? { OnlyColumn(columns, ColumnFor(columns, k).value); }
      }
    }
  }

  lemma OnlyColumn(columns: seq<Column>, c: Column)
    requires DistinctColumns(columns) && c in columns
    ensures forall d :: d in columns && d.name == c.name ==> d == c
  {
  }
}
