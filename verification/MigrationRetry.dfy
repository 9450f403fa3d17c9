/** When it is harmless to run the steps of a migration again. The steps are run on symbols: for every field, the
    list of places its value can come from, in the order in which they are looked at. */
module MigrationRetry {
  import opened Wrappers
  import opened Json
  import opened Tables
  import opened Migrations
  import opened MigrationRuns
  import opened Sequences

  /** The changes that a file makes to one table, up to its first bad step. */
  function Changes(steps: seq<Step>, table: string): seq<Change> {
    if steps == [] || ChangeOf(steps[0]).None? then []
    else (if steps[0].table == table then [ChangeOf(steps[0]).value] else []) + Changes(steps[1..], table)
  }

  function RowAfter(shard: nat, table: string, cs: seq<Change>, key: string, row: Value): Value {
    if cs == [] then row else RowAfter(shard, table, cs[1..], key, ChangedRow(shard, table, cs[0], key, row))
  }

  lemma {:induction false} RowsFollowChanges(shard: nat, steps: seq<Step>, table: string, rows: Rows, k: string)
    requires k in rows
    ensures var after := AfterSteps(shard, steps, table, rows);
            k in after && after[k] == RowAfter(shard, table, Changes(steps, table), k, rows[k])
    decreases |steps|
  {
    hide ChangedRow;
    if steps != [] && ChangeOf(steps[0]).Some? {
      RowsFollowChanges(shard, steps[1..], table, AfterStep(shard, steps[0], table, rows), k);
      var rest := Changes(steps[1..], table);
      if steps[0].table == table {
        var cs := [ChangeOf(steps[0]).value] + rest;
        assert cs[1..] == rest;
      } else {
        assert [] + rest == rest;
      }
    }
  }

  // ---- Where a value comes from -----------------------------------------------------------------------------

  /** A field of the row, a value of the file, or the key of the row. */
  datatype Origin = FieldOf(name: string) | Constant(value: Value) | RowKey

  function Get(fields: map<string, Value>, f: string): Option<Value> { if f in fields then Some(fields[f]) else None }

  /** The first origin that has a value. */
  function Pick(l: seq<Origin>, fields: map<string, Value>, key: string): Option<Value> {
    if l == [] then None
    else
      match l[0]
      case FieldOf(x) => if x in fields then Some(fields[x]) else Pick(l[1..], fields, key)
      case Constant(v) => Some(v)
      case RowKey => Some(Str(key))
  }

  /** The shard the engine writes into the rows of a table of players. */
  function ShardOf(shard: nat, table: string): Option<nat> {
    if table == "players" then Some(shard) else if IsLobbyPlayers(table) then Some(0) else None
  }

  /** An untouched field; the engine's own fields have known values. */
  function Base(shard: nat, table: string, f: string): seq<Origin> {
    if f == "row_key" then [RowKey]
    else if f == "shard_id" && ShardOf(shard, table).Some? then [Constant(Num(Int(ShardOf(shard, table).value)))]
    else [FieldOf(f)]
  }

  predicate IsInjected(shard: nat, table: string, f: string) {
    f == "row_key" || (f == "shard_id" && ShardOf(shard, table).Some?)
  }

  /** A field after one change. */
  function AfterOne(shard: nat, table: string, c: Change, f: string): seq<Origin> {
    var base := Base(shard, table, f);
    if IsInjected(shard, table, f) then base
    else
      match c
      case AddField(g, default) => if f == g then base + [Constant(default)] else base
      case RemoveField(g) => if f == g then [] else base
      case RenameField(g, h) =>
        if g == h then base
        else if f == h then Base(shard, table, g) + base
        else if f == g then []
        else base
  }

  function Substitute(shard: nat, table: string, c: Change, l: seq<Origin>): seq<Origin> {
    if l == [] then []
    else (if l[0].FieldOf? then AfterOne(shard, table, c, l[0].name) else [l[0]]) + Substitute(shard, table, c, l[1..])
  }

  /** A field after all changes. */
  function Origins(shard: nat, table: string, cs: seq<Change>, f: string): seq<Origin> {
    if cs == [] then Base(shard, table, f)
    else Substitute(shard, table, cs[0], Origins(shard, table, cs[1..], f))
  }

  lemma {:induction false} PickJoin(a: seq<Origin>, b: seq<Origin>, fields: map<string, Value>, key: string)
    ensures Pick(a + b, fields, key)
            == if Pick(a, fields, key).Some? then Pick(a, fields, key) else Pick(b, fields, key)
  {
    if a == [] {
      assert a + b == b;
    } else {
      assert (a + b)[1..] == a[1..] + b;
      PickJoin(a[1..], b, fields, key);
    }
  }

  predicate StoredFields(shard: nat, table: string, key: string, fields: map<string, Value>) {
    AsStored(shard, table, key, Obj(fields))
  }

  lemma StoredHas(shard: nat, table: string, key: string, fields: map<string, Value>, f: string)
    requires StoredFields(shard, table, key, fields)
    ensures Pick(Base(shard, table, f), fields, key) == Get(fields, f)
  {
    var injected := Injected(shard, table, key);
    PreparedInjects(shard, table, key, fields);
    assert fields + injected == fields;
    assert "row_key" in injected && injected["row_key"] == Str(key);
    assert (fields + injected)["row_key"] == fields["row_key"];
    if ShardOf(shard, table).Some? {
      assert "shard_id" in injected && injected["shard_id"] == Num(Int(ShardOf(shard, table).value));
      assert (fields + injected)["shard_id"] == fields["shard_id"];
    }
  }

  lemma OneChange(shard: nat, table: string, c: Change, key: string, fields: map<string, Value>, f: string)
    requires StoredFields(shard, table, key, fields)
    ensures var after := ChangedRow(shard, table, c, key, Obj(fields));
            after.Obj? && StoredFields(shard, table, key, after.fields)
            && Get(after.fields, f) == Pick(AfterOne(shard, table, c, f), fields, key)
  {
    var row := ChangedRow(shard, table, c, key, Obj(fields));
    ChangeIsIdempotent(shard, table, c, key, Obj(fields));
    var after := row.fields;
    StoredHas(shard, table, key, fields, f);
    StoredHas(shard, table, key, after, f);
    if c.RenameField? { StoredHas(shard, table, key, fields, c.oldField); }
    var base := Base(shard, table, f);
    match c
    case AddField(g, default) => PickJoin(base, [Constant(default)], fields, key);
    case RenameField(g, h) => PickJoin(Base(shard, table, g), base, fields, key);
    case _ =>
  }

  lemma {:induction false} PickSubstitute(shard: nat, table: string, c: Change, key: string, fields: map<string, Value>,
                                         l: seq<Origin>)
    requires StoredFields(shard, table, key, fields)
    ensures Pick(Substitute(shard, table, c, l), fields, key)
            == Pick(l, ChangedRow(shard, table, c, key, Obj(fields)).fields, key)
  {
    hide ChangedRow, AfterOne, StoredFields;
    if l != [] {
      PickSubstitute(shard, table, c, key, fields, l[1..]);
      var first := if l[0].FieldOf? then AfterOne(shard, table, c, l[0].name) else [l[0]];
      PickJoin(first, Substitute(shard, table, c, l[1..]), fields, key);
      if l[0].FieldOf? { OneChange(shard, table, c, key, fields, l[0].name); }
    }
  }

  /** The origins of a field say where its value comes from, in every row. */
  lemma {:induction false} OriginsAre(shard: nat, table: string, cs: seq<Change>, key: string,
                                      fields: map<string, Value>, f: string)
    requires StoredFields(shard, table, key, fields)
    ensures var after := RowAfter(shard, table, cs, key, Obj(fields));
            after.Obj? && StoredFields(shard, table, key, after.fields)
            && Get(after.fields, f) == Pick(Origins(shard, table, cs, f), fields, key)
    decreases |cs|
  {
    hide ChangedRow, StoredFields, Substitute, Pick, Base;
    if cs == [] {
      StoredHas(shard, table, key, fields, f);
    } else {
      OneChange(shard, table, cs[0], key, fields, f);
      OriginsAre(shard, table, cs[1..], key, ChangedRow(shard, table, cs[0], key, Obj(fields)).fields, f);
      PickSubstitute(shard, table, cs[0], key, fields, Origins(shard, table, cs[1..], f));
    }
  }

  // ---- Normal forms ---------------------------------------------------------------------------------------------

  /** Without repeats, and nothing behind an origin that always has a value. */
  function Normal(l: seq<Origin>): seq<Origin> {
    if l == [] then []
    else if l[0].FieldOf? then [l[0]] + Omit(l[0], Normal(l[1..]))
    else [l[0]]
  }

  function Omit(o: Origin, l: seq<Origin>): seq<Origin> { Without(l, o) }

  ghost predicate IsNormal(l: seq<Origin>) {
    NoRepeats(l) && forall i :: 0 <= i < |l| - 1 ==> l[i].FieldOf?
  }

  lemma {:induction false} OmitKeeps(o: Origin, l: seq<Origin>)
    requires IsNormal(l) && o.FieldOf?
    ensures IsNormal(Omit(o, l)) && o !in Omit(o, l) && forall p :: p in Omit(o, l) ==> p in l
    ensures l != [] && !l[|l| - 1].FieldOf? ==> Omit(o, l) != [] && Omit(o, l)[|Omit(o, l)| - 1] == l[|l| - 1]
  {
    WithoutIs(l, o);
    if l != [] {
      assert forall i :: 0 <= i < |l[1..]| ==> l[1..][i] == l[i + 1];
      OmitKeeps(o, l[1..]);
      var rest := Omit(o, l[1..]);
      assert forall i :: 0 <= i < |rest| ==> rest[i] in l[1..];
      if |l| > 1 && l[0] != o { assert l[0].FieldOf?; }
      if |l| == 1 { assert l[1..] == []; }
    }
  }

  lemma {:induction false} NormalIsNormal(l: seq<Origin>)
    ensures IsNormal(Normal(l)) && forall p :: p in Normal(l) ==> p in l
  {
    if l != [] && l[0].FieldOf? {
      NormalIsNormal(l[1..]);
      OmitKeeps(l[0], Normal(l[1..]));
      var rest := Omit(l[0], Normal(l[1..]));
      assert forall i :: 0 <= i < |rest| ==> rest[i] in rest;
    }
  }

  lemma {:induction false} PickOmit(o: Origin, l: seq<Origin>, fields: map<string, Value>, key: string)
    requires o.FieldOf? && o.name !in fields
    ensures Pick(Omit(o, l), fields, key) == Pick(l, fields, key)
  {
    if l != [] {
      PickOmit(o, l[1..], fields, key);
      assert ([l[0]] + Omit(o, l[1..]))[1..] == Omit(o, l[1..]) && [] + Omit(o, l[1..]) == Omit(o, l[1..]);
    }
  }

  lemma {:induction false} PickNormal(l: seq<Origin>, fields: map<string, Value>, key: string)
    ensures Pick(Normal(l), fields, key) == Pick(l, fields, key)
  {
    if l != [] && l[0].FieldOf? {
      PickNormal(l[1..], fields, key);
      if l[0].name !in fields { PickOmit(l[0], Normal(l[1..]), fields, key); }
    }
  }

  /** Two different normal forms are told apart by some row. */
  lemma {:induction false} Distinguish(a: seq<Origin>, b: seq<Origin>) returns (key: string, fields: map<string, Value>)
    requires IsNormal(a) && IsNormal(b) && a != b
    ensures forall x :: x in fields ==> FieldOf(x) in a || FieldOf(x) in b
    ensures Pick(a, fields, key) != Pick(b, fields, key)
    decreases |a|
  {
    key, fields := "", map[];
    if a == [] {
      if b[0].FieldOf? { fields := map[b[0].name := Null]; }
    } else if b == [] {
      if a[0].FieldOf? { fields := map[a[0].name := Null]; }
    } else if a[0] == b[0] {
      assert a == [a[0]] + a[1..] && b == [b[0]] + b[1..];
      Tails(a);
      Tails(b);
      key, fields := Distinguish(a[1..], b[1..]);
    } else {
      match (a[0], b[0]) {
        case (FieldOf(x), FieldOf(y)) => fields := map[x := Bool(true), y := Bool(false)];
        case (FieldOf(x), Constant(v)) => fields := map[x := if v == Null then Bool(true) else Null];
        case (Constant(v), FieldOf(y)) => fields := map[y := if v == Null then Bool(true) else Null];
        case (FieldOf(x), RowKey) => fields := map[x := Null];
        case (RowKey, FieldOf(y)) => fields := map[y := Null];
        case (Constant(v), RowKey) => key := if v == Str("") then "a" else "";
        case (RowKey, Constant(v)) => key := if v == Str("") then "a" else "";
        case _ =>
      }
    }
  }

  lemma Tails(a: seq<Origin>)
    requires IsNormal(a) && a != []
    ensures IsNormal(a[1..]) && (!a[0].FieldOf? ==> a[1..] == [])
    ensures forall p :: p in a[1..] ==> p in a && p != a[0]
  {
    assert forall i :: 0 <= i < |a[1..]| ==> a[1..][i] == a[i + 1];
    assert forall i :: 1 <= i < |a| ==> a[i] != a[0];
    if |a| > 1 { assert a[0].FieldOf?; }
  }

  // ---- Two lists of changes with the same effect ---------------------------------------------------------------

  ghost predicate SameEffect(shard: nat, table: string, a: seq<Change>, b: seq<Change>) {
    forall key, row :: AsStored(shard, table, key, row) ==>
      RowAfter(shard, table, a, key, row) == RowAfter(shard, table, b, key, row)
  }

  ghost predicate SameOrigins(shard: nat, table: string, a: seq<Change>, b: seq<Change>, f: string) {
    Normal(Origins(shard, table, a, f)) == Normal(Origins(shard, table, b, f))
  }

  lemma SameOriginsSameRow(shard: nat, table: string, a: seq<Change>, b: seq<Change>, key: string, row: Value)
    requires AsStored(shard, table, key, row) && forall f :: SameOrigins(shard, table, a, b, f)
    ensures RowAfter(shard, table, a, key, row) == RowAfter(shard, table, b, key, row)
  {
    if row.Obj? {
      var x, y := RowAfter(shard, table, a, key, row), RowAfter(shard, table, b, key, row);
      OriginsAre(shard, table, a, key, row.fields, "");
      OriginsAre(shard, table, b, key, row.fields, "");
      forall f: string ensures Get(x.fields, f) == Get(y.fields, f) {
        OriginsAre(shard, table, a, key, row.fields, f);
        OriginsAre(shard, table, b, key, row.fields, f);
        PickNormal(Origins(shard, table, a, f), row.fields, key);
        PickNormal(Origins(shard, table, b, f), row.fields, key);
        assert SameOrigins(shard, table, a, b, f);
      }
      FieldsEqual(x.fields, y.fields);
    } else {
      NoFields(shard, table, a, key, row);
      NoFields(shard, table, b, key, row);
    }
  }

  lemma FieldsEqual(x: map<string, Value>, y: map<string, Value>)
    requires forall f :: Get(x, f) == Get(y, f)
    ensures x == y
  {
    assert forall f :: f in x <==> Get(x, f).Some?;
    assert forall f :: f in y <==> Get(y, f).Some?;
    forall f | f in x ensures x[f] == y[f] { assert Get(x, f) == Get(y, f); }
  }

  lemma {:induction false} NoFields(shard: nat, table: string, cs: seq<Change>, key: string, row: Value)
    requires !row.Obj?
    ensures RowAfter(shard, table, cs, key, row) == row
    decreases |cs|
  {
    if cs != [] { NoFields(shard, table, cs[1..], key, row); }
  }

  /** The origins name no field of the engine. */
  lemma {:induction false} OriginsAreProper(shard: nat, table: string, cs: seq<Change>, f: string)
    ensures forall x :: FieldOf(x) in Origins(shard, table, cs, f) ==> !IsInjected(shard, table, x)
    decreases |cs|
  {
    if cs != [] {
      OriginsAreProper(shard, table, cs[1..], f);
      SubstituteProper(shard, table, cs[0], Origins(shard, table, cs[1..], f));
    }
  }

  lemma {:induction false} SubstituteProper(shard: nat, table: string, c: Change, l: seq<Origin>)
    ensures forall x :: FieldOf(x) in Substitute(shard, table, c, l) ==> !IsInjected(shard, table, x)
  {
    if l != [] {
      SubstituteProper(shard, table, c, l[1..]);
      if l[0].FieldOf? {
        assert forall x :: FieldOf(x) in AfterOne(shard, table, c, l[0].name) ==> !IsInjected(shard, table, x);
      }
    }
  }

  /** A row on which two fields with different normal forms come out differently. */
  lemma TellApart(shard: nat, table: string, a: seq<Change>, b: seq<Change>, f: string)
    returns (key: string, row: Value)
    requires !SameOrigins(shard, table, a, b, f)
    ensures AsStored(shard, table, key, row)
    ensures RowAfter(shard, table, a, key, row) != RowAfter(shard, table, b, key, row)
  {
    var l, r := Origins(shard, table, a, f), Origins(shard, table, b, f);
    NormalIsNormal(l);
    NormalIsNormal(r);
    var fields: map<string, Value>;
    key, fields := Distinguish(Normal(l), Normal(r));
    var all := fields + Injected(shard, table, key);
    row := Obj(all);
    PreparedInjects(shard, table, key, all);
    assert all + Injected(shard, table, key) == all;
    OriginsAreProper(shard, table, a, f);
    OriginsAreProper(shard, table, b, f);
    PickNormal(l, fields, key);
    PickNormal(r, fields, key);
    PickIgnores(shard, table, l, fields, key);
    PickIgnores(shard, table, r, fields, key);
    OriginsAre(shard, table, a, key, all, f);
    OriginsAre(shard, table, b, key, all, f);
  }

  lemma {:induction false} PickIgnores(shard: nat, table: string, l: seq<Origin>, fields: map<string, Value>,
                                       key: string)
    requires forall x :: FieldOf(x) in l ==> !IsInjected(shard, table, x)
    ensures Pick(l, fields + Injected(shard, table, key), key) == Pick(l, fields, key)
  {
    if l != [] {
      assert l[0] in l && forall x :: FieldOf(x) in l[1..] ==> FieldOf(x) in l;
      InjectedNames(shard, table, key);
      PickIgnores(shard, table, l[1..], fields, key);
    }
  }

  lemma InjectedNames(shard: nat, table: string, key: string)
    ensures forall x :: x in Injected(shard, table, key) <==> IsInjected(shard, table, x)
  {
  }

  /** Two lists of changes do the same to every stored row if and only if every field has the same origins. */
  lemma EffectIff(shard: nat, table: string, a: seq<Change>, b: seq<Change>)
    ensures SameEffect(shard, table, a, b) <==> forall f :: SameOrigins(shard, table, a, b, f)
  {
    if forall f :: SameOrigins(shard, table, a, b, f) {
      forall key, row | AsStored(shard, table, key, row)
        ensures RowAfter(shard, table, a, key, row) == RowAfter(shard, table, b, key, row)
      {
        SameOriginsSameRow(shard, table, a, b, key, row);
      }
    } else {
      var f :| !SameOrigins(shard, table, a, b, f);
      var key, row := TellApart(shard, table, a, b, f);
      hide RowAfter, AsStored;
    }
  }

  // ---- Running the steps again -----------------------------------------------------------------------------------

  function Names(c: Change): set<string> {
    match c case AddField(f, _) => {f} case RemoveField(f) => {f} case RenameField(f, g) => {f, g}
  }

  /** The fields the changes name. */
  function Mentioned(cs: seq<Change>): set<string> {
    if cs == [] then {} else Names(cs[0]) + Mentioned(cs[1..])
  }

  /** Can be read off the file: every field that it names has the same origins after one run and after two. */
  ghost predicate RetrySafe(shard: nat, table: string, cs: seq<Change>) {
    forall f :: f in Mentioned(cs) ==> SameOrigins(shard, table, cs, cs + cs, f)
  }

  lemma {:induction false} Unmentioned(shard: nat, table: string, cs: seq<Change>, f: string)
    requires f !in Mentioned(cs)
    ensures Origins(shard, table, cs, f) == Base(shard, table, f)
    decreases |cs|
  {
    if cs != [] {
      Unmentioned(shard, table, cs[1..], f);
      var base := Base(shard, table, f);
      assert base[1..] == [] && Substitute(shard, table, cs[0], []) == [];
      assert Substitute(shard, table, cs[0], base) == base + [];
    }
  }

  lemma {:induction false} MentionedJoin(a: seq<Change>, b: seq<Change>)
    ensures Mentioned(a + b) == Mentioned(a) + Mentioned(b)
  {
    if a == [] {
      assert a + b == b;
    } else {
      assert (a + b)[1..] == a[1..] + b;
      MentionedJoin(a[1..], b);
    }
  }

  lemma {:induction false} RowAfterJoin(shard: nat, table: string, a: seq<Change>, b: seq<Change>, key: string,
                                        row: Value)
    ensures RowAfter(shard, table, a + b, key, row)
            == RowAfter(shard, table, b, key, RowAfter(shard, table, a, key, row))
    decreases |a|
  {
    hide ChangedRow;
    if a == [] {
      assert a + b == b;
    } else {
      assert (a + b)[1..] == a[1..] + b;
      RowAfterJoin(shard, table, a[1..], b, key, ChangedRow(shard, table, a[0], key, row));
    }
  }

  ghost predicate StoredRows(shard: nat, table: string, rows: Rows) {
    forall k :: k in rows ==> AsStored(shard, table, k, rows[k])
  }

  /** Running the steps of a file again changes no stored row of a table, whatever its rows, if and only if the
      file is safe to retry for that table. */
  lemma RetryIsHarmless(shard: nat, steps: seq<Step>, table: string)
    ensures (forall rows :: StoredRows(shard, table, rows) ==>
               AfterSteps(shard, steps, table, AfterSteps(shard, steps, table, rows))
               == AfterSteps(shard, steps, table, rows)) <==>
            RetrySafe(shard, table, Changes(steps, table))
  {
    var cs := Changes(steps, table);
    MentionedJoin(cs, cs);
    assert RetrySafe(shard, table, cs) <==> forall f :: SameOrigins(shard, table, cs, cs + cs, f) by {
      forall f | f !in Mentioned(cs) ensures SameOrigins(shard, table, cs, cs + cs, f) {
        Unmentioned(shard, table, cs, f);
        Unmentioned(shard, table, cs + cs, f);
      }
    }
    EffectIff(shard, table, cs, cs + cs);
    hide RetrySafe, SameOrigins, Changes;
    if SameEffect(shard, table, cs, cs + cs) {
      forall rows | StoredRows(shard, table, rows)
        ensures AfterSteps(shard, steps, table, AfterSteps(shard, steps, table, rows))
                == AfterSteps(shard, steps, table, rows)
      {
        RetryRows(shard, steps, table, rows);
      }
    } else {
      var key, row :| AsStored(shard, table, key, row)
                      && RowAfter(shard, table, cs, key, row) != RowAfter(shard, table, cs + cs, key, row);
      RetryRow(shard, steps, table, map[key := row], key);
      assert StoredRows(shard, table, map[key := row]);
    }
  }

  lemma RetryRow(shard: nat, steps: seq<Step>, table: string, rows: Rows, k: string)
    requires k in rows
    ensures var once, cs := AfterSteps(shard, steps, table, rows), Changes(steps, table);
            var twice := AfterSteps(shard, steps, table, once);
            k in once && k in twice && once[k] == RowAfter(shard, table, cs, k, rows[k])
            && twice[k] == RowAfter(shard, table, cs + cs, k, rows[k])
  {
    var cs := Changes(steps, table);
    RowsFollowChanges(shard, steps, table, rows, k);
    RowsFollowChanges(shard, steps, table, AfterSteps(shard, steps, table, rows), k);
    RowAfterJoin(shard, table, cs, cs, k, rows[k]);
  }

  lemma RetryRows(shard: nat, steps: seq<Step>, table: string, rows: Rows)
    requires SameEffect(shard, table, Changes(steps, table), Changes(steps, table) + Changes(steps, table))
    requires StoredRows(shard, table, rows)
    ensures AfterSteps(shard, steps, table, AfterSteps(shard, steps, table, rows))
            == AfterSteps(shard, steps, table, rows)
  {
    var once := AfterSteps(shard, steps, table, rows);
    StepsKeepKeys(shard, steps, table, rows);
    StepsKeepKeys(shard, steps, table, once);
    hide AfterSteps, RowAfter, AsStored, Changes;
    forall k | k in once ensures AfterSteps(shard, steps, table, once)[k] == once[k] {
      RetryRow(shard, steps, table, rows, k);
      assert AsStored(shard, table, k, rows[k]);
    }
  }

  /** Retrying a file that fails half-way changes nothing, on any store, if and only if it is safe for every table. */
  lemma RetriedFileIsHarmless(shard: nat, f: File, c: Clock, d: Clock, recorded: set<string>)
    requires Stops(f, recorded) && f.content.Some?
    ensures (forall table, rows :: StoredRows(shard, table, rows) ==>
               var once := Migrated(shard, [f], c, recorded, table, rows);
               Migrated(shard, [f], d, recorded, table, once) == once) <==>
            forall table :: RetrySafe(shard, table, Changes(f.content.value.steps, table))
  {
    var steps := f.content.value.steps;
    forall table, rows
      ensures Migrated(shard, [f], c, recorded, table, rows) == AfterSteps(shard, steps, table, rows)
              == Migrated(shard, [f], d, recorded, table, rows)
    {
      FailedFileIsRetried(shard, f, c, recorded, table, rows);
      FailedFileIsRetried(shard, f, d, recorded, table, rows);
    }
    hide Migrated, AfterSteps, StoredRows, RetrySafe, Changes, Stops;
    if forall table :: RetrySafe(shard, table, Changes(steps, table)) {
      forall table, rows | StoredRows(shard, table, rows)
        ensures var once := Migrated(shard, [f], c, recorded, table, rows);
                Migrated(shard, [f], d, recorded, table, once) == once
      {
        RetryIsHarmless(shard, steps, table);
      }
    } else {
      var table :| !RetrySafe(shard, table, Changes(steps, table));
      RetryIsHarmless(shard, steps, table);
      var rows :| StoredRows(shard, table, rows)
                  && AfterSteps(shard, steps, table, AfterSteps(shard, steps, table, rows))
                     != AfterSteps(shard, steps, table, rows);
      var once := Migrated(shard, [f], c, recorded, table, rows);
      assert Migrated(shard, [f], d, recorded, table, once) != once;
    }
  }

  // ---- Two files that are not safe --------------------------------------------------------------------------------

  lemma SubstituteOne(shard: nat, table: string, c: Change, x: string)
    ensures Substitute(shard, table, c, [FieldOf(x)]) == AfterOne(shard, table, c, x)
    ensures Substitute(shard, table, c, []) == []
  {
    assert [FieldOf(x)][1..] == [] && AfterOne(shard, table, c, x) + [] == AfterOne(shard, table, c, x);
  }

  lemma SubstituteTwo(shard: nat, table: string, c: Change, x: string, y: string)
    ensures Substitute(shard, table, c, [FieldOf(x), FieldOf(y)])
            == AfterOne(shard, table, c, x) + AfterOne(shard, table, c, y)
  {
    SubstituteOne(shard, table, c, y);
    assert [FieldOf(x), FieldOf(y)][1..] == [FieldOf(y)];
  }

  lemma OriginsOfTwo(shard: nat, table: string, c: Change, d: Change, rest: seq<Change>, f: string)
    ensures Origins(shard, table, [c, d] + rest, f)
            == Substitute(shard, table, c, Substitute(shard, table, d, Origins(shard, table, rest, f)))
  {
    var all := [c, d] + rest;
    assert all[1..] == [d] + rest && ([d] + rest)[1..] == rest && all[0] == c && ([d] + rest)[0] == d;
  }

  /** "Rename a to b, add a": b comes from a once, and from the default of a in the next run. */
  lemma RenameThenAddIsUnsafe(shard: nat, table: string, default: Value)
    ensures !RetrySafe(shard, table, [RenameField("a", "b"), AddField("a", default)])
  {
    var c, d := RenameField("a", "b"), AddField("a", default);
    var cs := [c, d];
    OriginsOfTwo(shard, table, c, d, [], "b");
    OriginsOfTwo(shard, table, c, d, cs, "b");
    assert cs + [] == cs;
    SubstituteOne(shard, table, d, "b");
    SubstituteOne(shard, table, c, "b");
    assert AfterOne(shard, table, c, "b") == [FieldOf("a"), FieldOf("b")];
    assert Origins(shard, table, cs, "b") == [FieldOf("a"), FieldOf("b")];
    SubstituteTwo(shard, table, d, "a", "b");
    assert AfterOne(shard, table, d, "a") == [FieldOf("a"), Constant(default)];
    var middle := [FieldOf("a"), Constant(default), FieldOf("b")];
    assert Substitute(shard, table, d, Origins(shard, table, cs, "b")) == middle;
    assert AfterOne(shard, table, c, "a") == [] && middle[1..] == [Constant(default), FieldOf("b")];
    assert Substitute(shard, table, c, middle)
        == Substitute(shard, table, c, middle[1..]) == [Constant(default)]
           + Substitute(shard, table, c, middle[1..][1..]);
    assert "b" in Mentioned(cs) && Normal(Origins(shard, table, cs, "b"))[0] == FieldOf("a");
    assert Normal(Origins(shard, table, cs + cs, "b")) == [Constant(default)];
    assert !SameOrigins(shard, table, cs, cs + cs, "b");
  }

  /** "Remove b, rename a to b": the next run removes what the first had moved. */
  lemma RemoveThenRenameIsUnsafe(shard: nat, table: string)
    ensures !RetrySafe(shard, table, [RemoveField("b"), RenameField("a", "b")])
  {
    var c, d := RemoveField("b"), RenameField("a", "b");
    var cs := [c, d];
    OriginsOfTwo(shard, table, c, d, [], "b");
    OriginsOfTwo(shard, table, c, d, cs, "b");
    assert cs + [] == cs;
    SubstituteOne(shard, table, d, "b");
    SubstituteTwo(shard, table, c, "a", "b");
    assert AfterOne(shard, table, d, "b") == [FieldOf("a"), FieldOf("b")];
    assert AfterOne(shard, table, c, "a") == [FieldOf("a")] && AfterOne(shard, table, c, "b") == [];
    assert Origins(shard, table, cs, "b") == [FieldOf("a")];
    SubstituteOne(shard, table, d, "a");
    assert AfterOne(shard, table, d, "a") == [];
    SubstituteOne(shard, table, c, "a");
    assert Origins(shard, table, cs + cs, "b") == [];
    assert "b" in Mentioned(cs) && Normal([FieldOf("a")])[0] == FieldOf("a");
    assert !SameOrigins(shard, table, cs, cs + cs, "b");
  }
}
