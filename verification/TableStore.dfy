/** The part of the table store that subscriptions use: rows, secondary hash indexes, and the routing
    of lobby tables. */
module Tables {
  import opened Wrappers
  import opened Sequences
  import opened Text
  import opened Json

  /** From the text of a field value to the keys of the rows that carry it. */
  type Index = map<string, seq<string>>

  datatype Table = Table(rows: map<string, Value>, indexes: map<string, Index>)

  const EMPTY: Table := Table(map[], map[])

  /** The text a value is indexed under. Strings go in as they are, so "1" and 1 share a bucket;
      nulls are not indexed. */
  function IndexKey(text: Printer, v: Value): Option<string> {
    match v
    case Null => None
    case Str(s) => Some(s)
    case _ => Some(text(v))
  }

  function FieldKey(text: Printer, row: Value, field: string): Option<string> {
    if Field(row, field).None? then None else IndexKey(text, Field(row, field).value)
  }

  // ---- One index ----------------------------------------------------------------------------------

  function Lookup(idx: Index, fk: string): seq<string> { if fk in idx then idx[fk] else [] }

  function Add(idx: Index, fk: Option<string>, key: string): Index {
    if fk.None? || key in Lookup(idx, fk.value) then idx
    else idx[fk.value := Lookup(idx, fk.value) + [key]]
  }

  /** An empty bucket is dropped. */
  function Remove(idx: Index, fk: Option<string>, key: string): Index {
    if fk.None? || fk.value !in idx then idx
    else
      var bucket := Without(idx[fk.value], key);
      if bucket == [] then idx - {fk.value} else idx[fk.value := bucket]
  }

  ghost predicate Buckets(idx: Index) { forall fk :: fk in idx ==> NoRepeats(idx[fk]) }

  lemma AddKeeps(idx: Index, fk: Option<string>, key: string)
    requires Buckets(idx)
    ensures Buckets(Add(idx, fk, key))
    ensures forall g, k :: k in Lookup(Add(idx, fk, key), g) <==> k in Lookup(idx, g) || (fk == Some(g) && k == key)
  {}

  lemma RemoveKeeps(idx: Index, fk: Option<string>, key: string)
    requires Buckets(idx)
    ensures Buckets(Remove(idx, fk, key))
    ensures forall g, k :: k in Lookup(Remove(idx, fk, key), g) <==> k in Lookup(idx, g) && !(fk == Some(g) && k == key)
  {
    if fk.Some? && fk.value in idx { WithoutIs(idx[fk.value], key); }
  }

  // ---- One table ----------------------------------------------------------------------------------

  /** Every indexed row is found under its current value. Entries of rows that are gone may linger. */
  ghost predicate Covers(text: Printer, rows: map<string, Value>, field: string, idx: Index) {
    && Buckets(idx)
    && forall k :: k in rows && FieldKey(text, rows[k], field).Some? ==>
         k in Lookup(idx, FieldKey(text, rows[k], field).value)
  }

  ghost predicate Indexed(text: Printer, t: Table) {
    forall f :: f in t.indexes ==> Covers(text, t.rows, f, t.indexes[f])
  }

  /** The index holds every row under its current value and nothing else. */
  ghost predicate Mirrors(text: Printer, rows: map<string, Value>, field: string, idx: Index) {
    forall fk, k :: k in Lookup(idx, fk) <==> k in rows && FieldKey(text, rows[k], field) == Some(fk)
  }

  /** No index of the table has a stale key. */
  ghost predicate Tidy(text: Printer, t: Table) {
    forall f :: f in t.indexes ==> Mirrors(text, t.rows, f, t.indexes[f])
  }

  function OldKey(text: Printer, t: Table, key: string, field: string): Option<string> {
    if key in t.rows then FieldKey(text, t.rows[key], field) else None
  }

  function Written(text: Printer, t: Table, key: string, row: Value): Table {
    Table(t.rows[key := row],
          map f | f in t.indexes ::
            Add(Remove(t.indexes[f], OldKey(text, t, key, f), key), FieldKey(text, row, f), key))
  }

  function Deleted(text: Printer, t: Table, key: string): Table {
    Table(t.rows - {key}, map f | f in t.indexes :: Remove(t.indexes[f], OldKey(text, t, key, f), key))
  }

  lemma WrittenIndexed(text: Printer, t: Table, key: string, row: Value)
    requires Indexed(text, t)
    ensures Indexed(text, Written(text, t, key, row))
    ensures Tidy(text, t) ==> Tidy(text, Written(text, t, key, row))
  {
    hide Add, Remove, FieldKey;
    forall f | f in t.indexes
      ensures Covers(text, t.rows[key := row], f, Written(text, t, key, row).indexes[f])
      ensures Tidy(text, t) ==> Mirrors(text, t.rows[key := row], f, Written(text, t, key, row).indexes[f])
    {
      assert Covers(text, t.rows, f, t.indexes[f]);
      RemoveKeeps(t.indexes[f], OldKey(text, t, key, f), key);
      AddKeeps(Remove(t.indexes[f], OldKey(text, t, key, f), key), FieldKey(text, row, f), key);
    }
  }

  lemma DeletedIndexed(text: Printer, t: Table, key: string)
    requires Indexed(text, t)
    ensures Indexed(text, Deleted(text, t, key))
    ensures Tidy(text, t) ==> Tidy(text, Deleted(text, t, key))
  {
    hide Remove, FieldKey;
    forall f | f in t.indexes
      ensures Covers(text, t.rows - {key}, f, Deleted(text, t, key).indexes[f])
      ensures Tidy(text, t) ==> Mirrors(text, t.rows - {key}, f, Deleted(text, t, key).indexes[f])
    {
      assert Covers(text, t.rows, f, t.indexes[f]);
      RemoveKeeps(t.indexes[f], OldKey(text, t, key, f), key);
    }
  }

  // ---- Lobby tables -------------------------------------------------------------------------------

  /** `l<digits>_<name>` names a table of a lobby's own store. */
  predicate IsLobbyTable(name: string) {
    exists pos :: 2 <= pos < |name| && name[0] == 'l' && name[pos] == '_' && AllDigits(name[1..pos])
  }

  /** `l<digits>_players` names the players of a lobby. */
  predicate IsLobbyPlayers(name: string) {
    exists pos ::
      2 <= pos < |name| && name[0] == 'l' && name[pos] == '_' && AllDigits(name[1..pos]) && name[pos + 1..] == "players"
  }

  /** The engine adds the row key, and for players the shard, to every object it stores. A lobby's own
      store is shard 0. */
  function Prepared(shardId: nat, name: string, key: string, value: Value): Value {
    if !value.Obj? then value
    else
      var fields :=
        if name == "players" then value.fields["shard_id" := Num(Int(shardId))]
        else if IsLobbyPlayers(name) then value.fields["shard_id" := Num(Int(0))]
        else value.fields;
      Obj(fields["row_key" := Str(key)])
  }

  /** A lobby name that was indexed leaves an empty table with empty indexes in the main store. */
  ghost predicate Hollow(t: Table) { t.rows == map[] && forall f :: f in t.indexes ==> t.indexes[f] == map[] }

  // ---- The store ----------------------------------------------------------------------------------

  class TableStore {
    const text: Printer
    const shardId: nat
    var tables: map<string, Table>
    var lobbyTables: map<string, Table>

    ghost predicate Valid()
      reads this
    {
      && (forall n :: n in tables ==> Indexed(text, tables[n]))
      && (forall n :: n in tables && IsLobbyTable(n) ==> Hollow(tables[n]))
      && (forall n :: n in lobbyTables ==> IsLobbyTable(n) && Indexed(text, lobbyTables[n]))
    }

    /** No index has a stale key: so it is until a row cap evicts a row. */
    ghost predicate AllTidy()
      reads this
    {
      forall n :: n in tables ==> Tidy(text, tables[n])
    }

    constructor (text: Printer, shardId: nat)
      ensures Valid() && AllTidy() && tables == map[] && lobbyTables == map[] && this.text == text
              && this.shardId == shardId
    {
      this.text, this.shardId, tables, lobbyTables := text, shardId, map[], map[];
    }

    function GetTable(name: string): Table
      reads this
    {
      if name in tables then tables[name] else EMPTY
    }

    /** The table behind a name, wherever it lives. */
    function Home(name: string): Table
      reads this
    {
      if !IsLobbyTable(name) then GetTable(name) else if name in lobbyTables then lobbyTables[name] else EMPTY
    }

    /** The rows a reader of the table sees. */
    function Rows(name: string): map<string, Value>
      reads this
    {
      Home(name).rows
    }

    lemma HomeIndexed(name: string)
      requires Valid()
      ensures Indexed(text, Home(name)) && (AllTidy() && !IsLobbyTable(name) ==> Tidy(text, Home(name)))
    {
      hide IsLobbyTable;
    }

    method Put(name: string, t: Table)
      requires Valid() && Indexed(text, t)
      modifies this
      ensures Valid() && (old(AllTidy()) && (IsLobbyTable(name) || Tidy(text, t)) ==> AllTidy())
      ensures Rows(name) == t.rows && forall n :: n != name ==> Rows(n) == old(Rows(n))
    {
      hide IsLobbyTable, Indexed, Tidy;
      if IsLobbyTable(name) {
        lobbyTables := lobbyTables[name := t];
      } else {
        tables := tables[name := t];
      }
    }

    /** Replaces a row and moves its key between the buckets of every index. */
    method WriteRow(t: Table, key: string, row: Value) returns (t': Table)
      requires Indexed(text, t)
      ensures t' == Written(text, t, key, row) && t'.rows == t.rows[key := row] && Indexed(text, t')
      ensures Tidy(text, t) ==> Tidy(text, t')
    {
      hide Add, Remove, OldKey, FieldKey, Indexed, Covers, Tidy;
      var indexes, todo := t.indexes, t.indexes.Keys;
      while todo != {}
        invariant todo <= t.indexes.Keys == indexes.Keys
        invariant forall f :: f in t.indexes ==>
                    indexes[f] == if f in todo then t.indexes[f] else Written(text, t, key, row).indexes[f]
        decreases todo
      {
        var f :| f in todo;
        var idx := Remove(indexes[f], OldKey(text, t, key, f), key);
        idx := Add(idx, FieldKey(text, row, f), key);
        indexes := indexes[f := idx];
        todo := todo - {f};
      }
      t' := Table(t.rows[key := row], indexes);
      WrittenIndexed(text, t, key, row);
    }

    method DropRow(t: Table, key: string) returns (t': Table)
      requires Indexed(text, t)
      ensures t' == Deleted(text, t, key) && Indexed(text, t') && (Tidy(text, t) ==> Tidy(text, t'))
    {
      hide Remove, OldKey, FieldKey, Indexed, Tidy;
      var indexes, todo := t.indexes, t.indexes.Keys;
      while todo != {}
        invariant todo <= t.indexes.Keys == indexes.Keys
        invariant forall f :: f in t.indexes ==>
                    indexes[f] == if f in todo then t.indexes[f] else Deleted(text, t, key).indexes[f]
        decreases todo
      {
        var f :| f in todo;
        indexes := indexes[f := Remove(indexes[f], OldKey(text, t, key, f), key)];
        todo := todo - {f};
      }
      t' := Table(t.rows - {key}, indexes);
      DeletedIndexed(text, t, key);
    }

    method SetRow(name: string, key: string, value: Value)
      requires Valid()
      modifies this
      ensures Valid() && (old(AllTidy()) ==> AllTidy())
      ensures Rows(name) == old(Rows(name))[key := Prepared(shardId, name, key, value)]
      ensures forall n :: n != name ==> Rows(n) == old(Rows(n))
    {
      hide IsLobbyTable, Prepared, Indexed, Written, Tidy;
      var row := Prepared(shardId, name, key, value);
      HomeIndexed(name);
      var t := WriteRow(Home(name), key, row);
      hide Home, this.Valid, this.AllTidy;
      Put(name, t);
    }

    method DeleteRow(name: string, key: string)
      requires Valid()
      modifies this
      ensures Valid() && (old(AllTidy()) ==> AllTidy())
      ensures forall n :: Rows(n) == if n == name then old(Rows(n)) - {key} else old(Rows(n))
    {
      hide IsLobbyTable, Indexed, Tidy;
      if !IsLobbyTable(name) && name !in tables { return; }
      if IsLobbyTable(name) && name !in lobbyTables { return; }
      HomeIndexed(name);
      var t := DropRow(Home(name), key);
      hide Home, this.Valid, this.AllTidy;
      Put(name, t);
    }

    /** The row caps drop rows without telling the indexes. */
    method EvictRow(name: string, key: string)
      requires Valid()
      modifies this
      ensures Valid()
      ensures forall n :: Rows(n) == if n == name && !IsLobbyTable(n) then old(Rows(n)) - {key} else old(Rows(n))
    {
      if name in tables {
        tables := tables[name := tables[name].(rows := tables[name].rows - {key})];
      }
    }

    /** Registers an index and fills it from the rows of the table. Lobby names are not routed here:
        the index of a lobby table is built over an empty table of the main store. */
    method CreateIndex(name: string, field: string)
      requires Valid()
      modifies this
      ensures Valid() && (old(AllTidy()) ==> AllTidy()) && lobbyTables == old(lobbyTables)
      ensures forall n :: Rows(n) == old(Rows(n))
      ensures forall n :: n in old(tables) ==> n in tables
      ensures name in tables && field in tables[name].indexes
      ensures forall n :: n in old(tables) ==> old(tables)[n].indexes.Keys <= tables[n].indexes.Keys
    {
      hide Covers, Mirrors, IsLobbyTable;
      var table := GetTable(name);
      if field in table.indexes { return; }
      var idx := BackFill(table.rows, field);
      tables := tables[name := table.(indexes := table.indexes[field := idx])];
    }

    method BackFill(rows: map<string, Value>, field: string) returns (idx: Index)
      ensures Covers(text, rows, field, idx) && Mirrors(text, rows, field, idx)
      ensures rows == map[] ==> idx == map[]
    {
      hide Add, FieldKey;
      var todo := rows.Keys;
      idx := map[];
      assert forall fk :: Lookup(idx, fk) == [];
      while todo != {}
        invariant todo <= rows.Keys && Buckets(idx) && (todo == rows.Keys ==> idx == map[])
        invariant forall fk, k :: k in Lookup(idx, fk) <==>
                  k in rows && k !in todo && FieldKey(text, rows[k], field) == Some(fk)
        decreases todo
      {
        var k :| k in todo;
        AddKeeps(idx, FieldKey(text, rows[k], field), k);
        idx := Add(idx, FieldKey(text, rows[k], field), k);
        todo := todo - {k};
      }
    }

    /** The keys under which the value is indexed, or nothing if the field has no index. */
    function IndexLookup(name: string, field: string, value: Value): Option<seq<string>>
      reads this
    {
      if name !in tables || field !in tables[name].indexes || IndexKey(text, value).None? then None
      else Some(Lookup(tables[name].indexes[field], IndexKey(text, value).value))
    }

    function GetRow(name: string, key: string): Option<Value>
      reads this
    {
      if key in Rows(name) then Some(Rows(name)[key]) else None
    }

    /** All rows of the table, each once, in no particular order. */
    method ListRowsWithKeys(name: string) returns (r: seq<(string, Value)>)
      ensures Lists(r, Rows(name))
    {
      r := [];
      var rows := Rows(name);
      var todo := rows.Keys;
      while todo != {}
        invariant todo <= rows.Keys
        invariant Lists(r, map k | k in rows && k !in todo :: rows[k])
        decreases todo
      {
        var k :| k in todo;
        todo := todo - {k};
        r := r + [(k, rows[k])];
      }
      assert rows == map k | k in rows && k !in todo :: rows[k];
    }
  }

  /** `r` holds exactly the rows of `m`, each once. */
  ghost predicate Lists(r: seq<(string, Value)>, m: map<string, Value>) {
    && (forall i :: 0 <= i < |r| ==> r[i].0 in m && m[r[i].0] == r[i].1)
    && (forall k :: k in m ==> (k, m[k]) in r)
    && (forall i, j :: 0 <= i < j < |r| ==> r[i].0 != r[j].0)
  }
}
