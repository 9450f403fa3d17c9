/** What a sequence of migration runs achieves: files are applied once, in whatever portions. */
module MigrationRuns {
  import opened Wrappers
  import opened Json
  import opened Tables
  import opened Migrations

  predicate AllRecorded(files: seq<File>, recorded: set<string>) {
    forall i :: 0 <= i < |files| ==> files[i].name in recorded
  }

  lemma {:induction false} RecordedGrows(files: seq<File>, recorded: set<string>)
    ensures recorded <= Recorded(files, recorded)
    ensures Verdict(files, recorded).Ok? ==> AllRecorded(files, Recorded(files, recorded))
    decreases |files|
  {
    hide Stops;
    if files != [] && !Stops(files[0], recorded) {
      RecordedGrows(files[1..], recorded + {files[0].name});
      assert forall i :: 1 <= i < |files| ==> files[i] == files[1..][i - 1];
    }
  }

  /** Files that are recorded already are passed over. */
  lemma {:induction false} RecordedFilesDoNothing(shard: nat, files: seq<File>, clock: Clock,
                                              recorded: set<string>, table: string, rows: Rows)
    requires AllRecorded(files, recorded)
    ensures Migrated(shard, files, clock, recorded, table, rows) == rows
    ensures Recorded(files, recorded) == recorded && Verdict(files, recorded) == Ok(0)
    decreases |files|
  {
    hide AfterSteps, Obstacle;
    if files != [] {
      assert files[0].name in recorded && recorded + {files[0].name} == recorded;
      RecordedFilesDoNothing(shard, files[1..], clock, recorded, table, rows);
    }
  }

  /** A run over two lists in a row is a run over the first and then a run over the second. */
  lemma {:induction false} RunInTwoParts(shard: nat, first: seq<File>, second: seq<File>, clock: Clock,
                                         recorded: set<string>, table: string, rows: Rows)
    requires Verdict(first, recorded).Ok?
    ensures Migrated(shard, first + second, clock, recorded, table, rows)
            == Migrated(shard, second, clock, Recorded(first, recorded), table,
                        Migrated(shard, first, clock, recorded, table, rows))
    ensures Recorded(first + second, recorded) == Recorded(second, Recorded(first, recorded))
    ensures Verdict(first + second, recorded)
            == Counted(Verdict(first, recorded).value, Verdict(second, Recorded(first, recorded)))
    decreases |first|
  {
    hide AfterFile, Stops, Obstacle;
    if first == [] {
      assert first + second == second;
    } else {
      assert (first + second)[1..] == first[1..] + second;
      RunInTwoParts(shard, first[1..], second, clock, recorded + {first[0].name}, table,
                    AfterFile(shard, first[0], clock, recorded, table, rows));
    }
  }

  /** The clock shows only in the records. */
  lemma {:induction false} ClockShowsInRecordsOnly(shard: nat, files: seq<File>, c: Clock, d: Clock,
                                                   recorded: set<string>, table: string, rows: Rows)
    requires table != MIGRATIONS_TABLE
    ensures Migrated(shard, files, c, recorded, table, rows) == Migrated(shard, files, d, recorded, table, rows)
    decreases |files|
  {
    hide AfterSteps, Obstacle;
    if files != [] {
      assert AfterFile(shard, files[0], c, recorded, table, rows)
          == AfterFile(shard, files[0], d, recorded, table, rows);
      hide AfterFile;
      ClockShowsInRecordsOnly(shard, files[1..], c, d, recorded + {files[0].name}, table,
                              AfterFile(shard, files[0], c, recorded, table, rows));
    }
  }

  /** The keys of the record table are the names of the recorded files. */
  lemma {:induction false} RecordsAreNames(shard: nat, files: seq<File>, clock: Clock, recorded: set<string>,
                                           rows: Rows)
    requires recorded == rows.Keys
    ensures Migrated(shard, files, clock, recorded, MIGRATIONS_TABLE, rows).Keys == Recorded(files, recorded)
    decreases |files|
  {
    hide AfterFile, Stops;
    if files != [] {
      FileRecords(shard, files[0], clock, recorded, rows);
      if !Stops(files[0], recorded) {
        RecordsAreNames(shard, files[1..], clock, recorded + {files[0].name},
                        AfterFile(shard, files[0], clock, recorded, MIGRATIONS_TABLE, rows));
      }
    }
  }

  /** Applying a part of the list first and the whole list later leaves every table with the same rows, records
      the same files and applies as many of them as applying the whole list once, at whatever times. */
  lemma PartThenWholeIsWhole(shard: nat, files: seq<File>, k: nat, c: Clock, d: Clock, e: Clock,
                             recorded: set<string>, table: string, rows: Rows)
    requires k <= |files| && Verdict(files[..k], recorded).Ok?
    requires table == MIGRATIONS_TABLE ==> recorded == rows.Keys
    ensures var part := Migrated(shard, files[..k], c, recorded, table, rows);
            var twice := Migrated(shard, files, d, Recorded(files[..k], recorded), table, part);
            var once := Migrated(shard, files, e, recorded, table, rows);
            if table == MIGRATIONS_TABLE then twice.Keys == once.Keys == Recorded(files, recorded) else twice == once
    ensures Recorded(files, Recorded(files[..k], recorded)) == Recorded(files, recorded)
    ensures Verdict(files, recorded)
            == Counted(Verdict(files[..k], recorded).value, Verdict(files, Recorded(files[..k], recorded)))
  {
    var first, second := files[..k], files[k..];
    assert files == first + second;
    var middle := Recorded(first, recorded);
    var part := Migrated(shard, first, c, recorded, table, rows);
    RecordedGrows(first, recorded);
    RecordedFilesDoNothing(shard, first, d, middle, table, part);
    RunInTwoParts(shard, first, second, d, middle, table, part);
    RunInTwoParts(shard, first, second, e, recorded, table, rows);
    hide Migrated, Recorded, Verdict, AllRecorded;
    if table == MIGRATIONS_TABLE {
      RecordsAreNames(shard, first, c, recorded, rows);
      RecordsAreNames(shard, files, d, middle, part);
      RecordsAreNames(shard, files, e, recorded, rows);
    } else {
      ClockShowsInRecordsOnly(shard, first, c, e, recorded, table, rows);
      ClockShowsInRecordsOnly(shard, second, d, e, middle, table, part);
    }
  }

  /** A further run after a successful one applies nothing and changes nothing. */
  lemma FurtherRunAppliesNone(shard: nat, files: seq<File>, c: Clock, d: Clock,
                              recorded: set<string>, table: string, rows: Rows)
    requires Verdict(files, recorded).Ok?
    ensures var after := Migrated(shard, files, c, recorded, table, rows);
            Migrated(shard, files, d, Recorded(files, recorded), table, after) == after
    ensures Verdict(files, Recorded(files, recorded)) == Ok(0)
  {
    RecordedGrows(files, recorded);
    RecordedFilesDoNothing(shard, files, d, Recorded(files, recorded), table,
                           Migrated(shard, files, c, recorded, table, rows));
  }

  // ---- Retrying a single step ------------------------------------------------------------------------------

  /** A row as the engine stores it. */
  predicate AsStored(shard: nat, table: string, key: string, row: Value) {
    Prepared(shard, table, key, row) == row
  }

  /** The fields the engine writes into every object of the table. */
  function Injected(shard: nat, table: string, key: string): map<string, Value> {
    Prepared(shard, table, key, Obj(map[])).fields
  }

  lemma PreparedInjects(shard: nat, table: string, key: string, fields: map<string, Value>)
    ensures Prepared(shard, table, key, Obj(fields)) == Obj(fields + Injected(shard, table, key))
  {
  }

  /** With `injected` among the fields, changing and injecting twice is changing and injecting once. */
  lemma ChangeTwice(c: Change, fields: map<string, Value>, injected: map<string, Value>)
    requires fields + injected == fields && ChangedFields(c, fields).Some?
    ensures var once := ChangedFields(c, fields).value + injected;
            once + injected == once
            && (ChangedFields(c, once).Some? ==> ChangedFields(c, once).value + injected == once)
  {
    var once := ChangedFields(c, fields).value + injected;
    forall k | k in injected ensures k in fields && fields[k] == injected[k] {
      assert (fields + injected)[k] == injected[k];
    }
    assert once + injected == once;
  }

  /** Doing a change again to a stored row does nothing more, even when it takes away a field the engine injects. */
  lemma ChangeIsIdempotent(shard: nat, table: string, c: Change, key: string, row: Value)
    requires AsStored(shard, table, key, row)
    ensures var once := ChangedRow(shard, table, c, key, row);
            ChangedRow(shard, table, c, key, once) == once && AsStored(shard, table, key, once)
  {
    if row.Obj? && ChangedFields(c, row.fields).Some? {
      var changed := ChangedFields(c, row.fields).value;
      var once := changed + Injected(shard, table, key);
      PreparedInjects(shard, table, key, row.fields);
      PreparedInjects(shard, table, key, changed);
      PreparedInjects(shard, table, key, once);
      ChangeTwice(c, row.fields, Injected(shard, table, key));
      if ChangedFields(c, once).Some? { PreparedInjects(shard, table, key, ChangedFields(c, once).value); }
      hide ChangedFields, Prepared, Injected;
    }
  }

  // ---- A failed file is not recorded ---------------------------------------------------------------------------

  /** The steps before the obstacle stay in effect, the file is not recorded, and the next run starts it again. */
  lemma FailedFileIsRetried(shard: nat, f: File, clock: Clock, recorded: set<string>, table: string, rows: Rows)
    requires Stops(f, recorded) && f.content.Some?
    ensures Migrated(shard, [f], clock, recorded, table, rows) == AfterSteps(shard, f.content.value.steps, table, rows)
    ensures Recorded([f], recorded) == recorded && Verdict([f], recorded) == Err(Obstacle(f).value)
  {
  }

  /** Starting again is not harmless: with "rename a to b", "add a" and a bad step, the second attempt
      overwrites what the first had moved to b. */
  lemma RetryOverwrites(shard: nat, x: Value, default: Value, bad: Step)
    requires ChangeOf(bad).None? && x != default
    ensures var rename := Step("t", "rename_field", None, None, Some("a"), Some("b"));
            var add := Step("t", "add_field", Some("a"), Some(default), None, None);
            var row := Obj(map["a" := x, "row_key" := Str("k")]);
            var once := AfterSteps(shard, [rename, add, bad], "t", map["k" := row]);
            var twice := AfterSteps(shard, [rename, add, bad], "t", once);
            once == map["k" := Obj(map["a" := default, "b" := x, "row_key" := Str("k")])]
            && twice == map["k" := Obj(map["a" := default, "b" := default, "row_key" := Str("k")])]
  {
    var rename := Step("t", "rename_field", None, None, Some("a"), Some("b"));
    var add := Step("t", "add_field", Some("a"), Some(default), None, None);
    RenameThenAdd(shard, x, default, bad, map["a" := x, "row_key" := Str("k")]);
    RenameThenAdd(shard, default, default, bad, map["a" := default, "b" := x, "row_key" := Str("k")]);
  }

  lemma RowRenamed(shard: nat, x: Value, fields: map<string, Value>)
    requires "a" in fields && fields["a"] == x && "row_key" in fields && fields["row_key"] == Str("k")
    requires fields.Keys <= {"a", "b", "row_key"}
    ensures ChangedRow(shard, "t", RenameField("a", "b"), "k", Obj(fields)) == Obj(map["b" := x, "row_key" := Str("k")])
  {
    assert (fields - {"a"})["b" := x]["row_key" := Str("k")] == map["b" := x, "row_key" := Str("k")];
  }

  lemma RowAdded(shard: nat, x: Value, default: Value)
    ensures ChangedRow(shard, "t", AddField("a", default), "k", Obj(map["b" := x, "row_key" := Str("k")]))
            == Obj(map["a" := default, "b" := x, "row_key" := Str("k")])
  {
    assert map["b" := x, "row_key" := Str("k")]["a" := default]["row_key" := Str("k")]
        == map["a" := default, "b" := x, "row_key" := Str("k")];
  }

  lemma RenameThenAdd(shard: nat, x: Value, default: Value, bad: Step, fields: map<string, Value>)
    requires ChangeOf(bad).None? && "a" in fields && fields["a"] == x
    requires "row_key" in fields && fields["row_key"] == Str("k") && fields.Keys <= {"a", "b", "row_key"}
    ensures var rename := Step("t", "rename_field", None, None, Some("a"), Some("b"));
            var add := Step("t", "add_field", Some("a"), Some(default), None, None);
            AfterSteps(shard, [rename, add, bad], "t", map["k" := Obj(fields)])
            == map["k" := Obj(map["a" := default, "b" := x, "row_key" := Str("k")])]
  {
    var rename := Step("t", "rename_field", None, None, Some("a"), Some("b"));
    var add := Step("t", "add_field", Some("a"), Some(default), None, None);
    var renamed := map["b" := x, "row_key" := Str("k")];
    var added := map["a" := default, "b" := x, "row_key" := Str("k")];
    hide ChangedRow, Prepared;
    RowRenamed(shard, x, fields);
    RowAdded(shard, x, default);
    assert AfterStep(shard, rename, "t", map["k" := Obj(fields)]) == map["k" := Obj(renamed)];
    assert AfterStep(shard, add, "t", map["k" := Obj(renamed)]) == map["k" := Obj(added)];
    hide AfterStep;
    assert [rename, add, bad][1..] == [add, bad] && [add, bad][1..] == [bad];
    assert AfterSteps(shard, [bad], "t", map["k" := Obj(added)]) == map["k" := Obj(added)];
    assert AfterSteps(shard, [add, bad], "t", map["k" := Obj(renamed)]) == map["k" := Obj(added)];
  }
}
