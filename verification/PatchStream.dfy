/** Row patches on the tick path: the server remembers the last row it sent to a client and sends only
    the fields that changed; the client merges them into its own copy. */
module PatchStream {
  import opened Wrappers
  import opened Json
  import opened Filter

  type Key = (string, string)
  type RowMap = map<Key, Value>

  datatype Diff = Diff(subscription: string, table: string, rowKey: string, operation: string, data: Option<Value>)

  /** Whether the encoded patch is shorter than the encoded row. */
  type SizeTest = (Value, Value) -> bool

  function KeyOf(d: RowDelta): Key { (d.table, d.rowKey) }

  /** A delta that says everything about its row. */
  predicate FullRow(d: RowDelta) { d.operation == "delete" || d.data.Some? }

  // ---- The server ---------------------------------------------------------------------------------

  function Changed(old_: map<string, Value>, new_: map<string, Value>): map<string, Value> {
    map f | f in new_ && (f !in old_ || !Equal(old_[f], new_[f])) :: new_[f]
  }

  /** The fields of the new row that differ, unless nothing does or one side is no object. */
  function Patch(old_: Value, new_: Value): Option<Value> {
    if !old_.Obj? || !new_.Obj? || Changed(old_.fields, new_.fields) == map[] then None
    else Some(Obj(Changed(old_.fields, new_.fields)))
  }

  method ComputePatch(oldValue: Value, newValue: Value) returns (patch: Option<Value>)
    ensures patch == Patch(oldValue, newValue)
  {
    if !oldValue.Obj? || !newValue.Obj? { return None; }
    var fields: map<string, Value>, todo := map[], newValue.fields.Keys;
    while todo != {}
      invariant todo <= newValue.fields.Keys
      invariant fields == map f | f in Changed(oldValue.fields, newValue.fields) && f !in todo :: newValue.fields[f]
      decreases todo
    {
      var f :| f in todo;
      var v := newValue.fields[f];
      if f !in oldValue.fields || !Equal(oldValue.fields[f], v) { fields := fields[f := v]; }
      todo := todo - {f};
    }
    assert fields == Changed(oldValue.fields, newValue.fields);
    if fields == map[] { return None; }
    patch := Some(Obj(fields));
  }

  /** Whether the delta goes out as a patch of the cached row. */
  predicate SendsPatch(cache: RowMap, d: RowDelta, shorter: SizeTest) {
    && d.operation == "update" && d.data.Some? && KeyOf(d) in cache
    && Patch(cache[KeyOf(d)], d.data.value).Some?
    && shorter(Patch(cache[KeyOf(d)], d.data.value).value, d.data.value)
  }

  function DiffOf(cache: RowMap, d: RowDelta, subscription: string, shorter: SizeTest): Diff {
    if SendsPatch(cache, d, shorter)
    then Diff(subscription, d.table, d.rowKey, "patch", Patch(cache[KeyOf(d)], d.data.value))
    else Diff(subscription, d.table, d.rowKey, d.operation, d.data)
  }

  /** The cache always takes the full row, whichever form was sent. */
  function CacheAfter(cache: RowMap, d: RowDelta): RowMap {
    if d.operation == "delete" then cache - {KeyOf(d)}
    else if d.data.Some? then cache[KeyOf(d) := d.data.value]
    else cache
  }

  // ---- The client ---------------------------------------------------------------------------------

  function ApplyDiff(copy: RowMap, d: Diff): RowMap {
    var k := (d.table, d.rowKey);
    if d.operation == "delete" then copy - {k}
    else if d.operation == "patch" then
      if d.data.Some? && d.data.value.Obj? then
        var existing := if k in copy then copy[k] else Obj(map[]);
        copy[k := if existing.Obj? then Obj(existing.fields + d.data.value.fields) else existing]
      else copy
    else if d.data.Some? then copy[k := d.data.value]
    else copy
  }

  /** What the delta means, patches aside. */
  function ApplyDelta(rows: RowMap, d: RowDelta): RowMap {
    if d.operation == "delete" then rows - {KeyOf(d)}
    else if d.data.Some? then rows[KeyOf(d) := d.data.value]
    else rows
  }

  // ---- One patch ------------------------------------------------------------------------------------

  /** Where the patch leaves a field out, the copy must already have its new value; and the copy must
      have no field that the new row lacks. */
  predicate PatchFits(copy: map<string, Value>, cached: map<string, Value>, new_: map<string, Value>) {
    && copy.Keys <= new_.Keys
    && forall f :: f in new_ && f in cached && Equal(cached[f], new_[f]) ==> f in copy && Equal(copy[f], new_[f])
  }

  lemma ObjectsEqual(a: map<string, Value>, b: map<string, Value>)
    ensures Equal(Obj(a), Obj(b)) <==> a.Keys == b.Keys && forall f :: f in a && f in b ==> Equal(a[f], b[f])
  {
    var ca, cb := map f | f in a :: Canon(a[f]), map f | f in b :: Canon(b[f]);
    assert Canon(Obj(a)) == Obj(ca) && Canon(Obj(b)) == Obj(cb);
    if ca == cb {
      assert a.Keys == ca.Keys == cb.Keys == b.Keys;
      assert forall f :: f in a && f in b ==> ca[f] == cb[f];
    }
  }

  /** Merging the patch into any copy gives the new row if and only if the patch fits the copy. */
  lemma PatchIsExact(copy: map<string, Value>, cached: map<string, Value>, new_: map<string, Value>)
    ensures Equal(Obj(copy + Changed(cached, new_)), Obj(new_)) <==> PatchFits(copy, cached, new_)
  {
    hide Equal;
    var patch := Changed(cached, new_);
    var merged := copy + patch;
    ObjectsEqual(merged, new_);
    EqualReflexive();
    if Equal(Obj(merged), Obj(new_)) {
      forall f | f in copy ensures f in new_ { assert f in merged; }
      forall f | f in new_ && f in cached && Equal(cached[f], new_[f]) ensures f in copy && Equal(copy[f], new_[f]) {
        assert f in merged && f !in patch;
      }
    }
    if PatchFits(copy, cached, new_) {
      forall f | f in new_ ensures f in merged && Equal(merged[f], new_[f]) {
        if f !in patch { assert f in copy; }
      }
      assert merged.Keys == new_.Keys;
    }
  }

  lemma EqualReflexive()
    ensures forall v: Value :: Equal(v, v)
  {}

  // ---- One delta ------------------------------------------------------------------------------------

  /** The client holds every cached row, up to the sign of zeros. */
  ghost predicate Synced(cache: RowMap, copy: RowMap) {
    forall k :: k in cache ==> k in copy && Equal(copy[k], cache[k])
  }

  ghost predicate SameRows(a: RowMap, b: RowMap) {
    a.Keys == b.Keys && forall k :: k in a && k in b ==> Equal(a[k], b[k])
  }

  /** The patched row has every field of the cached one. */
  predicate KeepsFields(cache: RowMap, d: RowDelta) {
    d.operation == "update" && d.data.Some? && KeyOf(d) in cache && cache[KeyOf(d)].Obj? && d.data.value.Obj? ==>
      cache[KeyOf(d)].fields.Keys <= d.data.value.fields.Keys
  }

  lemma EqualObjects(a: Value, b: Value)
    requires Equal(a, b) && b.Obj?
    ensures a.Obj? && a.fields.Keys == b.fields.Keys
    ensures forall f :: f in a.fields && f in b.fields ==> Equal(a.fields[f], b.fields[f])
  {
    assert a.Obj?;
    ObjectsEqual(a.fields, b.fields);
  }

  /** A synced client copy agrees with the new row after a patch exactly if no field was dropped. */
  lemma SyncedPatchFits(copy: Value, cached: Value, new_: Value)
    requires Equal(copy, cached) && cached.Obj? && new_.Obj?
    ensures copy.Obj?
            && (PatchFits(copy.fields, cached.fields, new_.fields) <==> cached.fields.Keys <= new_.fields.Keys)
  {
    EqualObjects(copy, cached);
    hide Canon;
  }

  /** After one delta to a synced client, copy and cache still agree if and only if the delta did not
      go out as a patch of a row with a field that the new row lacks. */
  lemma DeltaIsExact(cache: RowMap, copy: RowMap, d: RowDelta, subscription: string, shorter: SizeTest)
    requires Synced(cache, copy) && d.operation != "patch"
    ensures Synced(CacheAfter(cache, d), ApplyDiff(copy, DiffOf(cache, d, subscription, shorter))) <==>
            (SendsPatch(cache, d, shorter) ==> KeepsFields(cache, d))
  {
    var k := KeyOf(d);
    EqualReflexive();
    hide Equal;
    var cache', copy' := CacheAfter(cache, d), ApplyDiff(copy, DiffOf(cache, d, subscription, shorter));
    if SendsPatch(cache, d, shorter) {
      var old_, new_ := cache[k], d.data.value;
      SyncedPatchFits(copy[k], old_, new_);
      PatchIsExact(copy[k].fields, old_.fields, new_.fields);
      assert copy'[k] == Obj(copy[k].fields + Changed(old_.fields, new_.fields));
      assert k in cache' && cache'[k] == new_;
    }
  }

  /** Under the same condition the copy moves as the plain delta would move it. */
  lemma DeltaActsPlain(cache: RowMap, copy: RowMap, rows: RowMap, d: RowDelta, subscription: string, shorter: SizeTest)
    requires Synced(cache, copy) && SameRows(copy, rows) && d.operation != "patch" && KeepsFields(cache, d)
    ensures SameRows(ApplyDiff(copy, DiffOf(cache, d, subscription, shorter)), ApplyDelta(rows, d))
  {
    var k := KeyOf(d);
    DeltaIsExact(cache, copy, d, subscription, shorter);
    EqualReflexive();
    hide Equal;
    var copy', rows' := ApplyDiff(copy, DiffOf(cache, d, subscription, shorter)), ApplyDelta(rows, d);
    if d.operation != "delete" && d.data.Some? {
      assert k in CacheAfter(cache, d) && CacheAfter(cache, d)[k] == d.data.value;
      assert Equal(copy'[k], rows'[k]);
    }
  }

  // ---- Whole streams ----------------------------------------------------------------------------------

  function CacheAll(cache: RowMap, ds: seq<RowDelta>): RowMap {
    if ds == [] then cache else CacheAfter(CacheAll(cache, ds[..|ds| - 1]), ds[|ds| - 1])
  }

  /** The diffs one client gets for the deltas that match one of its subscriptions. */
  function Diffs(cache: RowMap, ds: seq<RowDelta>, ids: seq<string>, shorter: SizeTest): seq<Diff>
    requires |ids| == |ds|
  {
    if ds == [] then []
    else
      var n := |ds| - 1;
      Diffs(cache, ds[..n], ids[..n], shorter) + [DiffOf(CacheAll(cache, ds[..n]), ds[n], ids[n], shorter)]
  }

  function ReplayDiffs(copy: RowMap, diffs: seq<Diff>): RowMap {
    if diffs == [] then copy else ApplyDiff(ReplayDiffs(copy, diffs[..|diffs| - 1]), diffs[|diffs| - 1])
  }

  function ReplayDeltas(rows: RowMap, ds: seq<RowDelta>): RowMap {
    if ds == [] then rows else ApplyDelta(ReplayDeltas(rows, ds[..|ds| - 1]), ds[|ds| - 1])
  }

  ghost predicate StreamKeepsFields(cache: RowMap, ds: seq<RowDelta>) {
    forall i :: 0 <= i < |ds| ==> ds[i].operation != "patch" && KeepsFields(CacheAll(cache, ds[..i]), ds[i])
  }

  /** Patch stream simulation: replaying the diffs, full or patched as the size test has it, keeps the
      client's copy of every cached row equal to the server's cache and gives the same rows as
      applying the deltas themselves. */
  lemma {:induction false} PatchesSimulateDeltas(cache: RowMap, copy: RowMap, rows: RowMap, ds: seq<RowDelta>,
                                                 ids: seq<string>, shorter: SizeTest)
    requires |ids| == |ds|
    requires Synced(cache, copy) && SameRows(copy, rows) && StreamKeepsFields(cache, ds)
    ensures var copy' := ReplayDiffs(copy, Diffs(cache, ds, ids, shorter));
            Synced(CacheAll(cache, ds), copy') && SameRows(copy', ReplayDeltas(rows, ds))
  {
    if ds != [] {
      var n := |ds| - 1;
      KeepsFieldsPrefix(cache, ds);
      ReplayLast(copy, cache, ds, ids, shorter);
      PatchesSimulateDeltas(cache, copy, rows, ds[..n], ids[..n], shorter);
      hide Synced, SameRows, KeepsFields, StreamKeepsFields, ApplyDiff, DiffOf, CacheAfter, ApplyDelta, Diffs,
        ReplayDiffs;
      var mid := ReplayDiffs(copy, Diffs(cache, ds[..n], ids[..n], shorter));
      DeltaIsExact(CacheAll(cache, ds[..n]), mid, ds[n], ids[n], shorter);
      DeltaActsPlain(CacheAll(cache, ds[..n]), mid, ReplayDeltas(rows, ds[..n]), ds[n], ids[n], shorter);
    }
  }

  lemma KeepsFieldsPrefix(cache: RowMap, ds: seq<RowDelta>)
    requires ds != [] && StreamKeepsFields(cache, ds)
    ensures StreamKeepsFields(cache, ds[..|ds| - 1])
    ensures ds[|ds| - 1].operation != "patch" && KeepsFields(CacheAll(cache, ds[..|ds| - 1]), ds[|ds| - 1])
  {
    hide KeepsFields;
    var init := ds[..|ds| - 1];
    assert forall i :: 0 <= i < |init| ==> init[i] == ds[i] && init[..i] == ds[..i];
  }

  lemma ReplayLast(copy: RowMap, cache: RowMap, ds: seq<RowDelta>, ids: seq<string>, shorter: SizeTest)
    requires ds != [] && |ids| == |ds|
    ensures var n := |ds| - 1;
            ReplayDiffs(copy, Diffs(cache, ds, ids, shorter))
            == ApplyDiff(ReplayDiffs(copy, Diffs(cache, ds[..n], ids[..n], shorter)),
                         DiffOf(CacheAll(cache, ds[..n]), ds[n], ids[n], shorter))
  {
    hide ApplyDiff, DiffOf;
    var n := |ds| - 1;
    var before, all := Diffs(cache, ds[..n], ids[..n], shorter), Diffs(cache, ds, ids, shorter);
    assert all[..|all| - 1] == before;
  }

  // ---- Where the two conditions come from ---------------------------------------------------------------

  const A := Str("a")
  const B := Str("b")

  /** An update that drops a field, sent as a patch: the client keeps the dropped field. */
  lemma DroppedFieldSurvives(shorter: SizeTest)
    requires forall p, v :: shorter(p, v)
    ensures var k := ("t", "r");
            var cache: RowMap := map[k := Obj(map["x" := A, "y" := A])];
            var d := RowDelta("t", "update", "r", Some(Obj(map["x" := B])));
            SendsPatch(cache, d, shorter)
            && !Synced(CacheAfter(cache, d), ApplyDiff(cache, DiffOf(cache, d, "s", shorter)))
  {
    var k := ("t", "r");
    var cache: RowMap := map[k := Obj(map["x" := A, "y" := A])];
    var d := RowDelta("t", "update", "r", Some(Obj(map["x" := B])));
    assert "x" in Changed(cache[k].fields, d.data.value.fields);
    assert "y" in cache[k].fields && "y" !in d.data.value.fields;
    DeltaIsExact(cache, cache, d, "s", shorter);
  }

  /** A full send buffer loses a frame, but the cache has moved on: the next patch leaves the client
      with a row that never existed. */
  lemma LostFrameDiverges(shorter: SizeTest)
    requires forall p, v :: shorter(p, v)
    ensures var k := ("t", "r");
            var first: RowMap := map[k := Obj(map["x" := A, "y" := A])];
            var lost := RowDelta("t", "update", "r", Some(Obj(map["x" := B, "y" := A])));
            var next := RowDelta("t", "update", "r", Some(Obj(map["x" := B, "y" := B])));
            var cache := CacheAfter(first, lost);
            KeepsFields(first, lost) && KeepsFields(cache, next)
            && !Synced(CacheAfter(cache, next), ApplyDiff(first, DiffOf(cache, next, "s", shorter)))
  {
    var k := ("t", "r");
    var stale, cached, new_ := map["x" := A, "y" := A], map["x" := B, "y" := A], map["x" := B, "y" := B];
    assert "y" in Changed(cached, new_);
    assert "x" in cached && Equal(cached["x"], new_["x"]) && !Equal(stale["x"], new_["x"]);
    PatchIsExact(stale, cached, new_);
    hide Equal, Changed;
    var first: RowMap, cache: RowMap := map[k := Obj(stale)], map[k := Obj(cached)];
    var next := RowDelta("t", "update", "r", Some(Obj(new_)));
    var diff := DiffOf(cache, next, "s", shorter);
    assert diff == Diff("s", "t", "r", "patch", Some(Obj(Changed(cached, new_))));
    hide DiffOf;
    assert ApplyDiff(first, diff)[k] == Obj(stale + Changed(cached, new_));
    assert CacheAfter(cache, next)[k] == Obj(new_);
  }
}
