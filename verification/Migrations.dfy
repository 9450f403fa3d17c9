/** Schema migrations: files of steps over the tables, each file applied once and recorded. */
module Migrations {
  import opened Wrappers
  import opened Json
  import opened Tables

  const MIGRATIONS_TABLE := "__migrations"

  datatype Step = Step(
    table: string, op: string, field: Option<string>, default: Option<Value>,
    oldField: Option<string>, newField: Option<string>)

  datatype Migration = Migration(version: nat, steps: seq<Step>)

  /** A file of the sorted listing; without content it cannot be read or parsed. */
  datatype File = File(name: string, content: Option<Migration>)

  datatype MigrationError = BadFile(name: string) | BadStep(step: Step)

  type Rows = map<string, Value>

  /** The time, in nanoseconds, at which a file is recorded. */
  type Clock = string -> nat

  // ---- Steps ----------------------------------------------------------------------------------------------

  datatype Change =
    | AddField(field: string, default: Value)
    | RemoveField(field: string)
    | RenameField(oldField: string, newField: string)

  /** Nothing for a step that lacks an argument or names no known operation. */
  function ChangeOf(s: Step): Option<Change> {
    if s.op == "add_field" then
      if s.field.Some? && s.default.Some? then Some(AddField(s.field.value, s.default.value)) else None
    else if s.op == "remove_field" then
      if s.field.Some? then Some(RemoveField(s.field.value)) else None
    else if s.op == "rename_field" then
      if s.oldField.Some? && s.newField.Some? then Some(RenameField(s.oldField.value, s.newField.value)) else None
    else None
  }

  function ChangedFields(c: Change, fields: map<string, Value>): Option<map<string, Value>> {
    match c
    case AddField(f, default) => if f in fields then None else Some(fields[f := default])
    case RemoveField(f) => if f in fields then Some(fields - {f}) else None
    case RenameField(f, g) => if f in fields then Some((fields - {f})[g := fields[f]]) else None
  }

  /** The row after the change; a changed row is written back and picks up the injected fields. */
  function ChangedRow(shard: nat, table: string, c: Change, key: string, row: Value): Value {
    if !row.Obj? || ChangedFields(c, row.fields).None? then row
    else Prepared(shard, table, key, Obj(ChangedFields(c, row.fields).value))
  }

  function ChangedRows(shard: nat, table: string, c: Change, rows: Rows): Rows {
    map k | k in rows :: ChangedRow(shard, table, c, k, rows[k])
  }

  function AfterStep(shard: nat, s: Step, table: string, rows: Rows): Rows {
    if s.table != table || ChangeOf(s).None? then rows else ChangedRows(shard, table, ChangeOf(s).value, rows)
  }

  /** The steps up to the first bad one. */
  function AfterSteps(shard: nat, steps: seq<Step>, table: string, rows: Rows): Rows {
    if steps == [] || ChangeOf(steps[0]).None? then rows
    else AfterSteps(shard, steps[1..], table, AfterStep(shard, steps[0], table, rows))
  }

  function FirstBadStep(steps: seq<Step>): Option<Step> {
    if steps == [] then None
    else if ChangeOf(steps[0]).None? then Some(steps[0])
    else FirstBadStep(steps[1..])
  }

  // ---- Files -----------------------------------------------------------------------------------------------

  function Record(version: nat, time: nat): Value {
    Obj(map["applied_at" := Num(Int(time % 0x1_0000_0000_0000_0000)), "version" := Num(Int(version))])
  }

  function AfterRecord(shard: nat, f: File, time: nat, table: string, rows: Rows): Rows
    requires f.content.Some?
  {
    if table != MIGRATIONS_TABLE then rows
    else rows[f.name := Prepared(shard, table, f.name, Record(f.content.value.version, time))]
  }

  /** Why a file that is not recorded yet would stop the run. */
  function Obstacle(f: File): Option<MigrationError> {
    if f.content.None? then Some(BadFile(f.name))
    else
      match FirstBadStep(f.content.value.steps)
      case Some(s) => Some(BadStep(s))
      case None => None
  }

  predicate Stops(f: File, recorded: set<string>) { f.name !in recorded && Obstacle(f).Some? }

  /** One table after one file: the steps before an obstacle have taken effect. */
  function AfterFile(shard: nat, f: File, clock: Clock, recorded: set<string>, table: string, rows: Rows): Rows {
    if f.name in recorded || f.content.None? then rows
    else
      var changed := AfterSteps(shard, f.content.value.steps, table, rows);
      if Obstacle(f).Some? then changed else AfterRecord(shard, f, clock(f.name), table, changed)
  }

  /** One table after a run over the files, when `recorded` names the files applied before it. */
  function Migrated(shard: nat, files: seq<File>, clock: Clock, recorded: set<string>, table: string,
                    rows: Rows): Rows {
    if files == [] then rows
    else
      var after := AfterFile(shard, files[0], clock, recorded, table, rows);
      if Stops(files[0], recorded) then after
      else Migrated(shard, files[1..], clock, recorded + {files[0].name}, table, after)
  }

  /** The files recorded after the run. */
  function Recorded(files: seq<File>, recorded: set<string>): set<string> {
    if files == [] || Stops(files[0], recorded) then recorded
    else Recorded(files[1..], recorded + {files[0].name})
  }

  /** How many files the run applies, or what stops it. */
  function Verdict(files: seq<File>, recorded: set<string>): Result<nat, MigrationError> {
    if files == [] then Ok(0)
    else if Stops(files[0], recorded) then Err(Obstacle(files[0]).value)
    else Counted(if files[0].name in recorded then 0 else 1, Verdict(files[1..], recorded + {files[0].name}))
  }

  function Counted(n: nat, r: Result<nat, MigrationError>): Result<nat, MigrationError> {
    if r.Ok? then Ok(n + r.value) else r
  }

  lemma {:induction false} StepsKeepKeys(shard: nat, steps: seq<Step>, table: string, rows: Rows)
    ensures AfterSteps(shard, steps, table, rows).Keys == rows.Keys
    decreases |steps|
  {
    if steps != [] && ChangeOf(steps[0]).Some? {
      StepsKeepKeys(shard, steps[1..], table, AfterStep(shard, steps[0], table, rows));
    }
  }

  /** A file that does not stop the run is in the records afterwards. */
  lemma FileRecords(shard: nat, f: File, clock: Clock, recorded: set<string>, rows: Rows)
    requires recorded == rows.Keys
    ensures AfterFile(shard, f, clock, recorded, MIGRATIONS_TABLE, rows).Keys
            == if Stops(f, recorded) then recorded else recorded + {f.name}
  {
    if f.content.Some? { StepsKeepKeys(shard, f.content.value.steps, MIGRATIONS_TABLE, rows); }
  }

  // ---- The run over the table store ------------------------------------------------------------------------

  method ChangeOne(store: TableStore, table: string, c: Change, key: string, row: Value)
    requires store.Valid() && key in store.Rows(table) && store.Rows(table)[key] == row
    modifies store
    ensures store.Valid()
    ensures store.Rows(table) == old(store.Rows(table))[key := ChangedRow(store.shardId, table, c, key, row)]
    ensures forall n :: n != table ==> store.Rows(n) == old(store.Rows(n))
  {
    hide ChangedFields, Prepared;
    if row.Obj? {
      var changed := ChangedFields(c, row.fields);
      if changed.Some? {
        store.SetRow(table, key, Obj(changed.value));
      }
    }
  }

  method ChangeTable(store: TableStore, table: string, c: Change)
    requires store.Valid()
    modifies store
    ensures store.Valid()
    ensures store.Rows(table) == ChangedRows(store.shardId, table, c, old(store.Rows(table)))
    ensures forall n :: n != table ==> store.Rows(n) == old(store.Rows(n))
  {
    hide ChangedRow, store.Rows, store.Valid;
    var rows := store.ListRowsWithKeys(table);
    var i := 0;
    while i < |rows|
      invariant i <= |rows| && store.Valid()
      invariant store.Rows(table).Keys == old(store.Rows(table)).Keys
      invariant forall j :: i <= j < |rows| ==> store.Rows(table)[rows[j].0] == rows[j].1
      invariant forall j :: 0 <= j < i ==>
                  store.Rows(table)[rows[j].0] == ChangedRow(store.shardId, table, c, rows[j].0, rows[j].1)
      invariant forall n :: n != table ==> store.Rows(n) == old(store.Rows(n))
    {
      ChangeOne(store, table, c, rows[i].0, rows[i].1);
      i := i + 1;
    }
    ListedAll(rows, old(store.Rows(table)), store.Rows(table), store.shardId, table, c);
  }

  lemma ListedAll(list: seq<(string, Value)>, before: Rows, after: Rows, shard: nat, table: string, c: Change)
    requires Lists(list, before) && after.Keys == before.Keys
    requires forall j :: 0 <= j < |list| ==> after[list[j].0] == ChangedRow(shard, table, c, list[j].0, list[j].1)
    ensures after == ChangedRows(shard, table, c, before)
  {
    hide ChangedRow;
    forall k | k in before ensures after[k] == ChangedRow(shard, table, c, k, before[k]) {
      var j :| 0 <= j < |list| && list[j] == (k, before[k]);
    }
  }

  method ApplyMigration(store: TableStore, m: Migration) returns (bad: Option<Step>)
    requires store.Valid()
    modifies store
    ensures store.Valid() && bad == FirstBadStep(m.steps)
    ensures forall n :: store.Rows(n) == AfterSteps(store.shardId, m.steps, n, old(store.Rows(n)))
  {
    hide store.Rows, store.Valid;
    var i := 0;
    assert m.steps[0..] == m.steps;
    while i < |m.steps|
      invariant i <= |m.steps| && store.Valid() && FirstBadStep(m.steps) == FirstBadStep(m.steps[i..])
      invariant forall n :: AfterSteps(store.shardId, m.steps, n, old(store.Rows(n)))
                            == AfterSteps(store.shardId, m.steps[i..], n, store.Rows(n))
    {
      hide ChangedRows;
      var s := m.steps[i];
      var c := ChangeOf(s);
      if c.None? {
        return Some(s);
      }
      ChangeTable(store, s.table, c.value);
      i := i + 1;
    }
    bad := None;
  }

  method ApplyFile(store: TableStore, f: File, clock: Clock) returns (r: Result<nat, MigrationError>)
    requires store.Valid()
    modifies store
    ensures store.Valid()
    ensures var recorded := old(store.Rows(MIGRATIONS_TABLE)).Keys;
            && (forall n :: store.Rows(n) == AfterFile(store.shardId, f, clock, recorded, n, old(store.Rows(n))))
            && r == if Stops(f, recorded) then Err(Obstacle(f).value) else Ok(if f.name in recorded then 0 else 1)
  {
    hide AfterSteps, FirstBadStep, Prepared;
    var done := store.GetRow(MIGRATIONS_TABLE, f.name);
    if done.Some? {
      return Ok(0);
    }
    if f.content.None? {
      return Err(BadFile(f.name));
    }
    var bad := ApplyMigration(store, f.content.value);
    if bad.Some? {
      return Err(BadStep(bad.value));
    }
    store.SetRow(MIGRATIONS_TABLE, f.name, Record(f.content.value.version, clock(f.name)));
    r := Ok(1);
  }

  lemma MigratedStep(shard: nat, files: seq<File>, i: nat, clock: Clock, recorded: set<string>, table: string,
                     rows: Rows)
    requires i < |files|
    ensures Migrated(shard, files[i..], clock, recorded, table, rows)
            == var after := AfterFile(shard, files[i], clock, recorded, table, rows);
               if Stops(files[i], recorded) then after
               else Migrated(shard, files[i + 1..], clock, recorded + {files[i].name}, table, after)
  {
    hide AfterFile, Stops;
    assert files[i..][1..] == files[i + 1..];
  }

  lemma VerdictStep(files: seq<File>, i: nat, recorded: set<string>, applied: nat)
    requires i < |files|
    ensures Counted(applied, Verdict(files[i..], recorded))
            == if Stops(files[i], recorded) then Err(Obstacle(files[i]).value)
               else Counted(applied + (if files[i].name in recorded then 0 else 1),
                            Verdict(files[i + 1..], recorded + {files[i].name}))
  {
    hide Obstacle;
    assert files[i..][1..] == files[i + 1..];
  }

  lemma NothingApplied(r: Result<nat, MigrationError>)
    ensures Counted(0, r) == r
  {
  }

  lemma NoFilesLeft(shard: nat, clock: Clock, recorded: set<string>, table: string, rows: Rows, applied: nat)
    ensures Migrated(shard, [], clock, recorded, table, rows) == rows
    ensures Counted(applied, Verdict([], recorded)) == Ok(applied)
  {
  }

  method ApplyMigrations(store: TableStore, files: seq<File>, clock: Clock) returns (r: Result<nat, MigrationError>)
    requires store.Valid()
    modifies store
    ensures store.Valid() && r == Verdict(files, old(store.Rows(MIGRATIONS_TABLE)).Keys)
    ensures forall n :: store.Rows(n)
                        == Migrated(store.shardId, files, clock, old(store.Rows(MIGRATIONS_TABLE)).Keys, n,
                           old(store.Rows(n)))
  {
    hide store.Rows, store.Valid, AfterFile, Stops, Obstacle, Migrated, Verdict, Counted;
    var applied, i := 0, 0;
    NothingApplied(Verdict(files, store.Rows(MIGRATIONS_TABLE).Keys));
    assert files[0..] == files;
    while i < |files|
      invariant i <= |files| && store.Valid()
      invariant forall n ::
        Migrated(store.shardId, files, clock, old(store.Rows(MIGRATIONS_TABLE)).Keys, n, old(store.Rows(n)))
        == Migrated(store.shardId, files[i..], clock, store.Rows(MIGRATIONS_TABLE).Keys, n, store.Rows(n))
      invariant Verdict(files, old(store.Rows(MIGRATIONS_TABLE)).Keys)
                == Counted(applied, Verdict(files[i..], store.Rows(MIGRATIONS_TABLE).Keys))
    {
      ghost var recorded := store.Rows(MIGRATIONS_TABLE).Keys;
      FileRecords(store.shardId, files[i], clock, recorded, store.Rows(MIGRATIONS_TABLE));
      forall n {
        MigratedStep(store.shardId, files, i, clock, recorded, n, store.Rows(n));
      }
      VerdictStep(files, i, recorded, applied);
      var one := ApplyFile(store, files[i], clock);
      if one.Err? {
        return one;
      }
      applied := applied + one.value;
      i := i + 1;
    }
    r := Ok(applied);
    forall n {
      NoFilesLeft(store.shardId, clock, store.Rows(MIGRATIONS_TABLE).Keys, n, store.Rows(n), applied);
    }
    assert files[i..] == [];
  }
}
