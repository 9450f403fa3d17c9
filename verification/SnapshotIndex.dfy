/** The initial snapshot of a subscription: candidate rows come from secondary indexes when the
    predicate allows it, and from a full scan otherwise. */
module SnapshotIndex {
  import opened Wrappers
  import opened Sequences
  import opened Strings
  import opened F64
  import opened Json
  import opened Filter
  import opened Tables

  /** The equality leaves of a predicate. */
  function EqFields(p: Predicate): seq<(string, Value)> {
    match p
    case Comparison(field, Eq, value) => [(field, value)]
    case Comparison(_, _, _) => []
    case In(_, _) => []
    case And(l, r) => EqFields(l) + EqFields(r)
    case Or(l, r) => EqFields(l) + EqFields(r)
  }

  function KeepCommon(l: seq<string>, r: seq<string>): seq<string> {
    if l == [] then [] else (if l[0] in r then [l[0]] else []) + KeepCommon(l[1..], r)
  }

  /** The union of the lookups of an IN list, or nothing if one of them has no index. */
  function LookupAll(s: TableStore, table: string, field: string, values: seq<Value>): Option<seq<string>>
    reads s
  {
    if values == [] then Some([])
    else
      var keys := s.IndexLookup(table, field, values[0]);
      var rest := LookupAll(s, table, field, values[1..]);
      if keys.None? || rest.None? then None else Some(keys.value + rest.value)
  }

  function Candidates(s: TableStore, p: Predicate, table: string): Option<seq<string>>
    reads s
  {
    match p
    case Comparison(field, Eq, value) => s.IndexLookup(table, field, value)
    case Comparison(_, _, _) => None
    case In(field, values) =>
      var keys := LookupAll(s, table, field, values);
      if keys.None? then None else Some(Dedup(SortStrings(keys.value)))
    case And(l, r) =>
      (match (Candidates(s, l, table), Candidates(s, r, table))
       case (Some(lk), Some(rk)) => Some(KeepCommon(lk, rk))
       case (Some(lk), None) => Some(lk)
       case (None, rk) => rk)
    case Or(l, r) =>
      (match (Candidates(s, l, table), Candidates(s, r, table))
       case (Some(lk), Some(rk)) => Some(Dedup(SortStrings(lk + rk)))
       case _ => None)
  }

  // ---- When an index answers an equality test ------------------------------------------------------

  /** The stored field has the index text of every value it compares equal to. */
  ghost predicate SameText(text: Printer, table: string, rows: map<string, Value>, field: string, v: Value) {
    forall k :: k in rows ==>
      var actual := ExtractField(SnapshotDelta(table, k, rows[k]), field);
      actual.Some? && Equal(v, actual.value) ==> FieldKey(text, rows[k], field) == IndexKey(text, v)
  }

  ghost predicate Faithful(text: Printer, table: string, rows: map<string, Value>, p: Predicate) {
    match p
    case Comparison(field, Eq, value) => SameText(text, table, rows, field, value)
    case Comparison(_, _, _) => true
    case In(field, values) => forall i :: 0 <= i < |values| ==> SameText(text, table, rows, field, values[i])
    case And(l, r) => Faithful(text, table, rows, l) && Faithful(text, table, rows, r)
    case Or(l, r) => Faithful(text, table, rows, l) && Faithful(text, table, rows, r)
  }

  ghost predicate PlainPredicate(p: Predicate) {
    match p
    case Comparison(_, _, value) => Canon(value) == value
    case In(_, values) => forall i :: 0 <= i < |values| ==> Canon(values[i]) == values[i]
    case And(l, r) => PlainPredicate(l) && PlainPredicate(r)
    case Or(l, r) => PlainPredicate(l) && PlainPredicate(r)
  }

  /** Every row is an object that carries its own key, and no negative zero is stored. */
  ghost predicate PlainRows(rows: map<string, Value>) {
    forall k :: k in rows ==>
      rows[k].Obj? && Field(rows[k], "row_key") == Some(Str(k))
      && forall f :: f in rows[k].fields ==> Canon(rows[k].fields[f]) == rows[k].fields[f]
  }

  lemma {:induction false} PlainIsFaithful(text: Printer, table: string, rows: map<string, Value>, p: Predicate)
    requires PlainPredicate(p) && PlainRows(rows)
    ensures Faithful(text, table, rows, p)
  {
    match p
    case Comparison(field, Eq, value) => PlainSameText(text, table, rows, field, value);
    case Comparison(_, _, _) =>
    case In(field, values) =>
      forall i | 0 <= i < |values| ensures SameText(text, table, rows, field, values[i]) {
        PlainSameText(text, table, rows, field, values[i]);
      }
    case And(l, r) => PlainIsFaithful(text, table, rows, l); PlainIsFaithful(text, table, rows, r);
    case Or(l, r) => PlainIsFaithful(text, table, rows, l); PlainIsFaithful(text, table, rows, r);
  }

  lemma PlainSameText(text: Printer, table: string, rows: map<string, Value>, field: string, v: Value)
    requires Canon(v) == v && PlainRows(rows)
    ensures SameText(text, table, rows, field, v)
  {
    forall k | k in rows
      ensures var actual := ExtractField(SnapshotDelta(table, k, rows[k]), field);
              actual.Some? && Equal(v, actual.value) ==> FieldKey(text, rows[k], field) == IndexKey(text, v)
    {
      assert ExtractField(SnapshotDelta(table, k, rows[k]), field) == Field(rows[k], field);
    }
  }

  // ---- The candidates are enough --------------------------------------------------------------------

  lemma {:induction false} KeepCommonIs(l: seq<string>, r: seq<string>)
    ensures forall y :: y in KeepCommon(l, r) <==> y in l && y in r
    ensures NoRepeats(l) ==> NoRepeats(KeepCommon(l, r))
  {
    if l != [] {
      KeepCommonIs(l[1..], r);
      var rest := KeepCommon(l[1..], r);
      assert forall j :: 0 <= j < |rest| ==> rest[j] in l[1..];
      assert NoRepeats(l) ==> NoRepeats(l[1..]);
    }
  }

  /** Whether the row under `k` is delivered. */
  ghost predicate Hits(p: Predicate, table: string, rows: map<string, Value>, k: string) {
    k in rows && Eval(p, SnapshotDelta(table, k, rows[k]))
  }

  lemma LookupCovers(s: TableStore, table: string, field: string, v: Value, k: string)
    requires s.Valid() && !IsLobbyTable(table) && k in s.Rows(table)
    requires SameText(s.text, table, s.Rows(table), field, v)
    requires s.IndexLookup(table, field, v).Some?
    ensures NoRepeats(s.IndexLookup(table, field, v).value)
    ensures var actual := ExtractField(SnapshotDelta(table, k, s.Rows(table)[k]), field);
            actual.Some? && Equal(v, actual.value) ==> k in s.IndexLookup(table, field, v).value
  {
    assert Covers(s.text, s.tables[table].rows, field, s.tables[table].indexes[field]);
  }

  lemma {:induction false} LookupAllCovers(s: TableStore, table: string, field: string, values: seq<Value>, k: string)
    requires s.Valid() && !IsLobbyTable(table) && k in s.Rows(table)
    requires forall i :: 0 <= i < |values| ==> SameText(s.text, table, s.Rows(table), field, values[i])
    requires LookupAll(s, table, field, values).Some?
    ensures var actual := ExtractField(SnapshotDelta(table, k, s.Rows(table)[k]), field);
            actual.Some? && Filter.Contains(values, actual.value) ==> k in LookupAll(s, table, field, values).value
  {
    if values != [] {
      hide SameText, Equal;
      LookupCovers(s, table, field, values[0], k);
      LookupAllCovers(s, table, field, values[1..], k);
      var actual := ExtractField(SnapshotDelta(table, k, s.Rows(table)[k]), field);
      if actual.Some? && Filter.Contains(values, actual.value) && !Equal(values[0], actual.value) {
        var i :| 0 <= i < |values| && Equal(values[i], actual.value);
        assert values[1..][i - 1] == values[i];
      }
    }
  }

  /** An equality comparison only holds of equal values. */
  lemma EqMeansEqual(actual: Option<Value>, v: Value)
    ensures Compare(Eq, actual, v) ==> actual.Some? && Equal(v, actual.value)
  {}

  lemma {:induction false} CandidatesCover(s: TableStore, p: Predicate, table: string, k: string)
    requires s.Valid() && !IsLobbyTable(table) && Faithful(s.text, table, s.Rows(table), p)
    requires Candidates(s, p, table).Some? && Hits(p, table, s.Rows(table), k)
    ensures k in Candidates(s, p, table).value
  {
    hide SameText, Equal, IsLobbyTable, Indexed, Hollow;
    match p
    case Comparison(field, Eq, value) =>
      EqMeansEqual(ExtractField(SnapshotDelta(table, k, s.Rows(table)[k]), field), value);
      LookupCovers(s, table, field, value, k);
    case In(field, values) =>
      LookupAllCovers(s, table, field, values, k);
      SortDedup(LookupAll(s, table, field, values).value);
    case And(l, r) =>
      if Candidates(s, l, table).Some? { CandidatesCover(s, l, table, k); }
      if Candidates(s, r, table).Some? { CandidatesCover(s, r, table, k); }
      if Candidates(s, l, table).Some? && Candidates(s, r, table).Some? {
        KeepCommonIs(Candidates(s, l, table).value, Candidates(s, r, table).value);
      }
    case Or(l, r) =>
      var lk, rk := Candidates(s, l, table).value, Candidates(s, r, table).value;
      if Hits(l, table, s.Rows(table), k) {
        CandidatesCover(s, l, table, k);
      } else {
        CandidatesCover(s, r, table, k);
      }
      SortDedup(lk + rk);
  }

  lemma {:induction false} CandidatesDistinct(s: TableStore, p: Predicate, table: string)
    requires s.Valid() && Candidates(s, p, table).Some?
    ensures NoRepeats(Candidates(s, p, table).value)
  {
    match p
    case Comparison(field, Eq, value) =>
      assert Covers(s.text, s.tables[table].rows, field, s.tables[table].indexes[field]);
    case In(field, values) => SortDedup(LookupAll(s, table, field, values).value);
    case And(l, r) =>
      if Candidates(s, l, table).Some? { CandidatesDistinct(s, l, table); }
      if Candidates(s, r, table).Some? { CandidatesDistinct(s, r, table); }
      if Candidates(s, l, table).Some? && Candidates(s, r, table).Some? {
        KeepCommonIs(Candidates(s, l, table).value, Candidates(s, r, table).value);
      }
    case Or(l, r) => SortDedup(Candidates(s, l, table).value + Candidates(s, r, table).value);
  }

  // ---- Which rows the candidates hold ---------------------------------------------------------------

  /** The row's index texts lead to it, for the leaves that the indexes decide. */
  ghost predicate TextHits(s: TableStore, p: Predicate, table: string, row: Value)
    requires Candidates(s, p, table).Some?
    reads s
  {
    match p
    case Comparison(field, Eq, value) => FieldKey(s.text, row, field) == IndexKey(s.text, value)
    case Comparison(_, _, _) => true
    case In(field, values) =>
      exists i :: 0 <= i < |values| && FieldKey(s.text, row, field) == IndexKey(s.text, values[i])
    case And(l, r) =>
      (Candidates(s, l, table).Some? ==> TextHits(s, l, table, row))
      && (Candidates(s, r, table).Some? ==> TextHits(s, r, table, row))
    case Or(l, r) => TextHits(s, l, table, row) || TextHits(s, r, table, row)
  }

  lemma LookupIs(s: TableStore, table: string, field: string, v: Value, k: string)
    requires s.Valid() && s.AllTidy() && !IsLobbyTable(table) && s.IndexLookup(table, field, v).Some?
    ensures k in s.IndexLookup(table, field, v).value <==>
            k in s.Rows(table) && FieldKey(s.text, s.Rows(table)[k], field) == IndexKey(s.text, v)
  {
    assert Mirrors(s.text, s.tables[table].rows, field, s.tables[table].indexes[field]);
  }

  lemma {:induction false} LookupAllIs(s: TableStore, table: string, field: string, values: seq<Value>, k: string)
    requires s.Valid() && s.AllTidy() && !IsLobbyTable(table) && LookupAll(s, table, field, values).Some?
    ensures k in LookupAll(s, table, field, values).value <==>
            k in s.Rows(table)
            && exists i :: 0 <= i < |values| && FieldKey(s.text, s.Rows(table)[k], field) == IndexKey(s.text, values[i])
  {
    if values != [] {
      hide IsLobbyTable, FieldKey, IndexKey, s.Valid, s.AllTidy, s.Rows;
      LookupIs(s, table, field, values[0], k);
      LookupAllIs(s, table, field, values[1..], k);
      assert forall i :: 1 <= i < |values| ==> values[i] == values[1..][i - 1];
    }
  }

  /** Without stale keys the candidates are exactly the rows whose index texts hit. */
  lemma {:induction false} CandidatesAreTextHits(s: TableStore, p: Predicate, table: string, k: string)
    requires s.Valid() && s.AllTidy() && !IsLobbyTable(table) && Candidates(s, p, table).Some?
    ensures k in Candidates(s, p, table).value <==> k in s.Rows(table) && TextHits(s, p, table, s.Rows(table)[k])
  {
    hide IsLobbyTable, FieldKey, IndexKey, s.Valid, s.AllTidy, s.Rows;
    match p
    case Comparison(field, Eq, value) => LookupIs(s, table, field, value, k);
    case In(field, values) =>
      LookupAllIs(s, table, field, values, k);
      SortDedup(LookupAll(s, table, field, values).value);
    case And(l, r) =>
      if Candidates(s, l, table).Some? { CandidatesAreTextHits(s, l, table, k); }
      if Candidates(s, r, table).Some? { CandidatesAreTextHits(s, r, table, k); }
      if Candidates(s, l, table).Some? && Candidates(s, r, table).Some? {
        KeepCommonIs(Candidates(s, l, table).value, Candidates(s, r, table).value);
      }
    case Or(l, r) =>
      CandidatesAreTextHits(s, l, table, k);
      CandidatesAreTextHits(s, r, table, k);
      SortDedup(Candidates(s, l, table).value + Candidates(s, r, table).value);
  }

  // ---- The snapshot -----------------------------------------------------------------------------------

  /** The rows a full scan with the filter delivers. */
  ghost function Matching(f: SubscriptionFilter, rows: map<string, Value>): map<string, Value> {
    map k | k in rows && Matches(f, SnapshotDelta(f.table, k, rows[k])) :: rows[k]
  }

  /** The indexes decide which rows are looked at. */
  predicate IndexDecides(s: TableStore, f: SubscriptionFilter)
    reads s
  {
    f.condition.Some? && Candidates(s, f.condition.value, f.table).Some?
  }

  /** The rows that are looked at: the candidates, or all. */
  function LookedAt(s: TableStore, f: SubscriptionFilter): map<string, Value>
    reads s
  {
    if IndexDecides(s, f) then RowsOf(s.Rows(f.table), Candidates(s, f.condition.value, f.table).value)
    else s.Rows(f.table)
  }

  /** The condition a full scan and an index agree on, whatever indexes there are. */
  ghost predicate IndexSafe(s: TableStore, f: SubscriptionFilter)
    reads s
  {
    f.condition.None?
    || (!IsLobbyTable(f.table) && Faithful(s.text, f.table, s.Rows(f.table), f.condition.value))
  }

  /** Collects the matching rows of the initial snapshot, registering an index for every equality leaf first:
      exactly the rows that are looked at and match, each once. */
  method MatchingRows(s: TableStore, f: SubscriptionFilter) returns (r: seq<(string, Value)>)
    requires s.Valid()
    modifies s
    ensures s.Valid() && (old(s.AllTidy()) ==> s.AllTidy()) && forall n :: s.Rows(n) == old(s.Rows(n))
    ensures f.condition.Some? ==> forall x :: x in EqFields(f.condition.value) ==> HasIndex(s, f.table, x.0)
    ensures Lists(r, Matching(f, LookedAt(s, f)))
  {
    hide IsLobbyTable, Faithful, Matches, Candidates, s.Valid, s.AllTidy, s.Rows;
    if f.condition.Some? { CreateIndexes(s, f.table, EqFields(f.condition.value)); }
    var rows := CandidateRows(s, f);
    r := Select(f, rows);
    SelectedMatch(f, rows, LookedAt(s, f), r);
  }

  method CandidateRows(s: TableStore, f: SubscriptionFilter) returns (rows: seq<(string, Value)>)
    requires s.Valid()
    ensures Lists(rows, LookedAt(s, f))
  {
    hide IsLobbyTable, Candidates, s.Rows;
    if f.condition.Some? {
      var keys := Candidates(s, f.condition.value, f.table);
      if keys.Some? {
        CandidatesDistinct(s, f.condition.value, f.table);
        rows := Fetch(s, f.table, keys.value);
      } else {
        rows := s.ListRowsWithKeys(f.table);
      }
    } else {
      rows := s.ListRowsWithKeys(f.table);
    }
  }

  lemma SelectedMatch(f: SubscriptionFilter, rows: seq<(string, Value)>, m: map<string, Value>, r: seq<(string, Value)>)
    requires Lists(rows, m)
    requires forall i :: 0 <= i < |r| ==> r[i] in rows && Matches(f, SnapshotDelta(f.table, r[i].0, r[i].1))
    requires forall x :: x in rows && Matches(f, SnapshotDelta(f.table, x.0, x.1)) ==> x in r
    requires forall i, j :: 0 <= i < j < |r| ==> r[i].0 != r[j].0
    ensures Lists(r, Matching(f, m))
  {
    hide Matches;
    var found := Matching(f, m);
    forall i | 0 <= i < |r| ensures r[i].0 in found && found[r[i].0] == r[i].1 {
      assert r[i] in rows;
      var j :| 0 <= j < |rows| && rows[j] == r[i];
    }
    forall k | k in found ensures (k, found[k]) in r { assert (k, m[k]) in rows; }
  }

  /** When the snapshot is what a full scan delivers. For a lobby table: no index decides, or nothing matches.
      For any other table without stale keys: no index decides, or the index texts of every matching row hit. */
  lemma SnapshotIsExact(s: TableStore, f: SubscriptionFilter)
    requires s.Valid()
    ensures IsLobbyTable(f.table) ==>
              (Matching(f, LookedAt(s, f)) == Matching(f, s.Rows(f.table)) <==>
               !IndexDecides(s, f) || Matching(f, s.Rows(f.table)) == map[])
    ensures !IsLobbyTable(f.table) && s.AllTidy() ==>
              (Matching(f, LookedAt(s, f)) == Matching(f, s.Rows(f.table)) <==>
               !IndexDecides(s, f)
               || forall k :: k in Matching(f, s.Rows(f.table)) ==>
                  TextHits(s, f.condition.value, f.table, s.Rows(f.table)[k]))
  {
    if IndexDecides(s, f) {
      var p, m := f.condition.value, s.Rows(f.table);
      var full, found := Matching(f, m), Matching(f, LookedAt(s, f));
      hide Matches, s.Rows, Candidates, TextHits;
      assert forall k :: k in found <==> k in full && k in Candidates(s, p, f.table).value;
      if IsLobbyTable(f.table) {
        LobbyCandidates(s, p, f.table);
      } else if s.AllTidy() {
        forall k | k in m
          ensures k in Candidates(s, p, f.table).value <==> TextHits(s, p, f.table, m[k])
        {
          CandidatesAreTextHits(s, p, f.table, k);
        }
      }
      if forall k :: k in full ==> k in found { assert found == full; }
    }
  }

  /** Equal values with equal texts are enough, whatever stale keys the indexes hold. */
  lemma SafeIsScanned(s: TableStore, f: SubscriptionFilter)
    requires s.Valid() && IndexSafe(s, f)
    ensures Matching(f, LookedAt(s, f)) == Matching(f, s.Rows(f.table))
  {
    if IndexDecides(s, f) {
      var m := s.Rows(f.table);
      forall k | k in m && Matches(f, SnapshotDelta(f.table, k, m[k])) ensures k in LookedAt(s, f) {
        assert Hits(f.condition.value, f.table, m, k);
        CandidatesCover(s, f.condition.value, f.table, k);
      }
    }
  }

  /** One indexed equality: a row is missed exactly if it matches and its index text is another one. */
  lemma MissedByEquality(s: TableStore, f: SubscriptionFilter, k: string)
    requires s.Valid() && s.AllTidy() && !IsLobbyTable(f.table) && f.condition.Some?
    requires f.condition.value.Comparison? && f.condition.value.op.Eq? && IndexDecides(s, f)
    ensures var full := Matching(f, s.Rows(f.table));
            k in full && k !in Matching(f, LookedAt(s, f)) <==>
            k in full && FieldKey(s.text, full[k], f.condition.value.field) != IndexKey(s.text, f.condition.value.value)
  {
    CandidatesAreTextHits(s, f.condition.value, f.table, k);
  }

  predicate HasIndex(s: TableStore, table: string, field: string)
    reads s
  {
    table in s.tables && field in s.tables[table].indexes
  }

  method CreateIndexes(s: TableStore, table: string, fields: seq<(string, Value)>)
    requires s.Valid()
    modifies s
    ensures s.Valid() && (old(s.AllTidy()) ==> s.AllTidy()) && forall n :: s.Rows(n) == old(s.Rows(n))
    ensures forall i :: 0 <= i < |fields| ==> HasIndex(s, table, fields[i].0)
  {
    hide s.Rows, s.Valid, s.AllTidy;
    for i := 0 to |fields|
      invariant s.Valid() && (old(s.AllTidy()) ==> s.AllTidy()) && forall n :: s.Rows(n) == old(s.Rows(n))
      invariant forall j :: 0 <= j < i ==> HasIndex(s, table, fields[j].0)
    {
      s.CreateIndex(table, fields[i].0);
    }
  }

  function RowsOf(m: map<string, Value>, keys: seq<string>): map<string, Value> { map k | k in m && k in keys :: m[k] }

  lemma ListsNone(m: map<string, Value>)
    ensures Lists([], RowsOf(m, []))
  {
  }

  lemma ListsAppend(rows: seq<(string, Value)>, m: map<string, Value>, k: string, v: Value)
    requires Lists(rows, m) && k !in m
    ensures Lists(rows + [(k, v)], m[k := v])
  {
    var all, after := rows + [(k, v)], m[k := v];
    assert all[|rows|] == (k, v);
    forall l | l in after ensures (l, after[l]) in all {
      if l != k { assert (l, m[l]) in rows; }
    }
  }

  lemma RowsOfMore(m: map<string, Value>, keys: seq<string>, i: nat)
    requires NoRepeats(keys) && i < |keys|
    ensures keys[i] !in RowsOf(m, keys[..i])
    ensures RowsOf(m, keys[..i + 1])
            == if keys[i] in m then RowsOf(m, keys[..i])[keys[i] := m[keys[i]]] else RowsOf(m, keys[..i])
  {
    assert keys[..i + 1] == keys[..i] + [keys[i]];
  }

  lemma ListsOneMore(rows: seq<(string, Value)>, m: map<string, Value>, keys: seq<string>, i: nat)
    requires NoRepeats(keys) && i < |keys|
    requires Lists(rows, RowsOf(m, keys[..i]))
    ensures keys[..i + 1] == keys[..i] + [keys[i]]
    ensures Lists(if keys[i] in m then rows + [(keys[i], m[keys[i]])] else rows, RowsOf(m, keys[..i + 1]))
  {
    hide Lists, RowsOf, NoRepeats;
    RowsOfMore(m, keys, i);
    if keys[i] in m { ListsAppend(rows, RowsOf(m, keys[..i]), keys[i], m[keys[i]]); }
  }

  /** Fetches the rows of the candidate keys; a stale key finds no row and is skipped. */
  method Fetch(s: TableStore, table: string, keys: seq<string>) returns (rows: seq<(string, Value)>)
    requires NoRepeats(keys)
    ensures |rows| <= |keys| && forall i :: 0 <= i < |rows| ==> rows[i].0 in keys
    ensures Lists(rows, RowsOf(s.Rows(table), keys))
  {
    hide IsLobbyTable, s.Rows, Lists, RowsOf;
    rows := [];
    ListsNone(s.Rows(table));
    for i := 0 to |keys|
      invariant |rows| <= i && forall j :: 0 <= j < |rows| ==> rows[j].0 in keys[..i]
      invariant Lists(rows, RowsOf(s.Rows(table), keys[..i]))
    {
      var row := s.GetRow(table, keys[i]);
      ListsOneMore(rows, s.Rows(table), keys, i);
      if row.Some? { rows := rows + [(keys[i], row.value)]; }
    }
    assert keys[..|keys|] == keys;
  }

  method Select(f: SubscriptionFilter, rows: seq<(string, Value)>) returns (r: seq<(string, Value)>)
    requires forall i, j :: 0 <= i < j < |rows| ==> rows[i].0 != rows[j].0
    ensures forall i :: 0 <= i < |r| ==> r[i] in rows && Matches(f, SnapshotDelta(f.table, r[i].0, r[i].1))
    ensures forall x :: x in rows && Matches(f, SnapshotDelta(f.table, x.0, x.1)) ==> x in r
    ensures forall i, j :: 0 <= i < j < |r| ==> r[i].0 != r[j].0
    ensures rows == [] ==> r == []
  {
    hide Matches;
    r := [];
    for i := 0 to |rows|
      invariant forall j :: 0 <= j < |r| ==> r[j] in rows[..i] && Matches(f, SnapshotDelta(f.table, r[j].0, r[j].1))
      invariant forall x :: x in rows[..i] && Matches(f, SnapshotDelta(f.table, x.0, x.1)) ==> x in r
      invariant forall j, k :: 0 <= j < k < |r| ==> r[j].0 != r[k].0
      invariant |r| <= i
    {
      assert rows[..i + 1] == rows[..i] + [rows[i]];
      if Matches(f, SnapshotDelta(f.table, rows[i].0, rows[i].1)) { r := r + [rows[i]]; }
    }
    assert rows[..|rows|] == rows;
  }

  // ---- Where the snapshot falls short -----------------------------------------------------------------

  /** The indexes of a lobby name are built over an empty table of the main store, so every indexed
      lookup comes back empty: the subscriber gets no initial rows although the lobby has them. */
  lemma {:induction false} LobbyCandidates(s: TableStore, p: Predicate, table: string)
    requires s.Valid() && IsLobbyTable(table) && Candidates(s, p, table).Some?
    ensures Candidates(s, p, table).value == []
  {
    match p
    case Comparison(field, Eq, value) => assert Hollow(s.tables[table]);
    case In(field, values) => LobbyLookups(s, table, field, values);
    case And(l, r) =>
      if Candidates(s, l, table).Some? { LobbyCandidates(s, l, table); }
      if Candidates(s, r, table).Some? { LobbyCandidates(s, r, table); }
    case Or(l, r) =>
      LobbyCandidates(s, l, table);
      LobbyCandidates(s, r, table);
      assert Candidates(s, l, table).value + Candidates(s, r, table).value == [];
  }

  lemma {:induction false} LobbyLookups(s: TableStore, table: string, field: string, values: seq<Value>)
    requires s.Valid() && IsLobbyTable(table) && LookupAll(s, table, field, values).Some?
    ensures LookupAll(s, table, field, values).value == []
  {
    if values != [] {
      assert Hollow(s.tables[table]);
      LobbyLookups(s, table, field, values[1..]);
    }
  }

  function EqualTo(table: string, field: string, v: Value): SubscriptionFilter {
    SubscriptionFilter(table, Some(Comparison(field, Eq, v)), None, None)
  }

  /** A store with one row and the snapshot for one equality. */
  method SnapshotOfOne(text: Printer, table: string, k: string, row: Value, field: string, v: Value)
    returns (s: TableStore, r: seq<(string, Value)>)
    ensures s.Valid() && s.text == text && s.AllTidy() && s.Rows(table) == map[k := Prepared(0, table, k, row)]
    ensures HasIndex(s, table, field)
            && Lists(r, Matching(EqualTo(table, field, v), LookedAt(s, EqualTo(table, field, v))))
  {
    s := new TableStore(text, 0);
    s.SetRow(table, k, row);
    hide IsLobbyTable, Prepared, s.Valid, s.AllTidy, LookedAt, Matching;
    r := MatchingRows(s, EqualTo(table, field, v));
    assert (field, v) in EqFields(Comparison(field, Eq, v));
  }

  /** A stored -0.0 equals 0.0 for the filter but is indexed under its own text, so the snapshot for `x = 0.0`
      misses the row that a full scan delivers. */
  method NegativeZeroIsMissed(text: Printer) returns (s: TableStore, r: seq<(string, Value)>)
    requires text(Num(Float(NEGATIVE_ZERO))) != text(Num(Float(POSITIVE_ZERO)))
    ensures r == [] && "k" in Matching(EqualTo("t", "x", Num(Float(POSITIVE_ZERO))), s.Rows("t"))
  {
    var zero, f := Num(Float(POSITIVE_ZERO)), EqualTo("t", "x", Num(Float(POSITIVE_ZERO)));
    s, r := SnapshotOfOne(text, "t", "k", Obj(map["x" := Num(Float(NEGATIVE_ZERO))]), "x", zero);
    var row := s.Rows("t")["k"];
    assert Field(row, "x") == Some(Num(Float(NEGATIVE_ZERO))) && Equal(Num(Float(NEGATIVE_ZERO)), zero);
    hide s.Valid, s.AllTidy;
    MissedByEquality(s, f, "k");
    NothingListed(f, s, r);
  }

  /** A row that is no object matches its own key but has no `row_key` field to be indexed under. */
  method KeyOfNonObjectIsMissed(text: Printer, k: string, row: Value) returns (s: TableStore, r: seq<(string, Value)>)
    requires !row.Obj?
    ensures r == [] && k in Matching(EqualTo("t", "row_key", Str(k)), s.Rows("t"))
  {
    var f := EqualTo("t", "row_key", Str(k));
    s, r := SnapshotOfOne(text, "t", k, row, "row_key", Str(k));
    MissedByEquality(s, f, k);
    NothingListed(f, s, r);
  }

  lemma SomeElement(r: seq<(string, Value)>)
    ensures r != [] ==> exists i :: 0 <= i < |r| && r[i] in r
  {
    if r != [] { assert r[0] in r; }
  }

  lemma NothingListed(f: SubscriptionFilter, s: TableStore, r: seq<(string, Value)>)
    requires Lists(r, Matching(f, LookedAt(s, f)))
    requires forall k :: k in s.Rows(f.table) ==> k !in Matching(f, LookedAt(s, f))
    ensures r == []
  {
    SomeElement(r);
  }
}
