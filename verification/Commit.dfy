/** The batch commit of a reducer: the staged deltas are written one after the other, and the deltas that come out
    go to the subscribers. */
module Commit {
  import opened Wrappers
  import opened Json
  import opened Filter
  import opened PatchStream
  import opened Tables

  type I32 = i: int | -0x8000_0000 <= i < 0x8000_0000
  type U32 = i: int | 0 <= i < 0x1_0000_0000
  type I64 = i: int | -0x8000_0000_0000_0000 <= i < 0x8000_0000_0000_0000

  /** 32-bit addition wraps around. */
  function Wrap(i: int): I32 { (i + 0x8000_0000) % 0x1_0000_0000 - 0x8000_0000 }

  datatype Counter = Counter(id: U32, name: string, value: I32, lastModified: I64)

  /** A staged delta; the other parts belong to counter additions, the id to those that make a new counter. */
  datatype Staged = Staged(delta: RowDelta, amount: I32, time: I64, newId: U32)

  datatype CommitError = MissingData | BadCounter | UnknownOperation

  predicate IsWrite(d: RowDelta) { d.operation == "insert" || d.operation == "update" }

  predicate IsAddition(d: RowDelta) { d.operation == "counter_add" }

  // ---- Counters ---------------------------------------------------------------------------------------------

  function CounterRow(c: Counter): Value {
    Obj(map["id" := Num(Int(c.id)), "name" := Str(c.name), "value" := Num(Int(c.value)),
            "last_modified" := Num(Int(c.lastModified))])
  }

  predicate IsIntFrom(v: Value, low: int, high: int) { v.Num? && v.n.Int? && low <= v.n.i < high }

  function CounterParts(id: Value, name: Value, value: Value, time: Value): Option<Counter> {
    if IsIntFrom(id, 0, 0x1_0000_0000) && name.Str? && IsIntFrom(value, -0x8000_0000, 0x8000_0000)
       && IsIntFrom(time, -0x8000_0000_0000_0000, 0x8000_0000_0000_0000)
    then Some(Counter(id.n.i, name.s, value.n.i, time.n.i)) else None
  }

  /** A stored row read as a counter: an object with its four fields among others, or an array of the four. */
  function CounterOf(row: Value): Option<Counter> {
    match row
    case Obj(fs) =>
      if "id" in fs && "name" in fs && "value" in fs && "last_modified" in fs
      then CounterParts(fs["id"], fs["name"], fs["value"], fs["last_modified"]) else None
    case Arr(items) => if |items| == 4 then CounterParts(items[0], items[1], items[2], items[3]) else None
    case _ => None
  }

  /** The counter after an addition, or nothing if the stored row is no counter. */
  function Added(old_: Option<Value>, st: Staged): Option<Counter> {
    match old_
    case None => Some(Counter(st.newId, st.delta.rowKey, st.amount, st.time))
    case Some(row) =>
      match CounterOf(row)
      case None => None
      case Some(c) => Some(Counter(c.id, st.delta.rowKey, Wrap(c.value + st.amount), st.time))
  }

  /** Storing a counter adds fields of its own, and it is still that counter. */
  lemma CounterStays(shard: nat, table: string, key: string, c: Counter)
    ensures CounterOf(Prepared(shard, table, key, CounterRow(c))) == Some(c)
  {
  }

  // ---- The batch --------------------------------------------------------------------------------------------

  /** The row to write, or no row for a deletion. */
  function ToWrite(rows: RowMap, st: Staged): Result<Option<Value>, CommitError> {
    var d, k := st.delta, KeyOf(st.delta);
    if IsWrite(d) then if d.data.Some? then Ok(d.data) else Err(MissingData)
    else if d.operation == "delete" then Ok(None)
    else if IsAddition(d) then
      var c := Added(if k in rows then Some(rows[k]) else None, st);
      if c.Some? then Ok(Some(CounterRow(c.value))) else Err(BadCounter)
    else Err(UnknownOperation)
  }

  /** The delta that comes out carries the row as it was stored. */
  function CommittedDelta(shard: nat, rows: RowMap, d: RowDelta, row: Option<Value>): RowDelta {
    if row.None? then RowDelta(d.table, "delete", d.rowKey, None)
    else RowDelta(d.table, if KeyOf(d) in rows then "update" else "insert", d.rowKey,
                  Some(Prepared(shard, d.table, d.rowKey, row.value)))
  }

  /** The deltas written up to the first error, and that error. */
  function Outcome(shard: nat, rows: RowMap, staged: seq<Staged>)
    : (r: (seq<RowDelta>, Option<CommitError>))
    ensures |r.0| <= |staged| && (r.1.None? <==> |r.0| == |staged|)
    decreases |staged|
  {
    if staged == [] then ([], None)
    else
      match ToWrite(rows, staged[0])
      case Err(e) => ([], Some(e))
      case Ok(row) =>
        var d := CommittedDelta(shard, rows, staged[0].delta, row);
        var rest := Outcome(shard, ApplyDelta(rows, d), staged[1..]);
        ([d] + rest.0, rest.1)
  }

  /** Only an operation nobody knows is answered after the rollback; the other errors return on the spot. */
  predicate RollsBack(e: CommitError) { e.UnknownOperation? }

  /** The rows after the call. */
  function AfterBatch(shard: nat, rows: RowMap, staged: seq<Staged>): RowMap {
    var (done, error) := Outcome(shard, rows, staged);
    if error.Some? && RollsBack(error.value) then rows else ReplayDeltas(rows, done)
  }

  lemma {:induction false} ReplayFront(rows: RowMap, d: RowDelta, ds: seq<RowDelta>)
    ensures ReplayDeltas(rows, [d] + ds) == ReplayDeltas(ApplyDelta(rows, d), ds)
  {
    hide ApplyDelta;
    if ds == [] {
      assert [d] + ds == [d] && [d][..0] == [];
    } else {
      assert ([d] + ds)[..|ds|] == [d] + ds[..|ds| - 1];
      ReplayFront(rows, d, ds[..|ds| - 1]);
    }
  }

  lemma ReplayLast(rows: RowMap, ds: seq<RowDelta>, d: RowDelta)
    ensures ReplayDeltas(rows, ds + [d]) == ApplyDelta(ReplayDeltas(rows, ds), d)
  {
    assert (ds + [d])[..|ds|] == ds;
  }

  method CommitBatch(shard: nat, rows: RowMap, staged: seq<Staged>)
    returns (after: RowMap, r: Result<seq<RowDelta>, CommitError>)
    ensures var (done, error) := Outcome(shard, rows, staged);
            after == AfterBatch(shard, rows, staged) && r == if error.Some? then Err(error.value) else Ok(done)
  {
    hide ToWrite, CommittedDelta, ApplyDelta, Outcome;
    var committed: seq<RowDelta> := [];
    var applied: seq<(Key, Option<Value>)> := [];
    after := rows;
    assert staged[0..] == staged
        && [] + Outcome(shard, rows, staged).0 == Outcome(shard, rows, staged).0;
    for i := 0 to |staged|
      invariant var rest := Outcome(shard, after, staged[i..]);
                Outcome(shard, rows, staged) == (committed + rest.0, rest.1)
      invariant after == ReplayDeltas(rows, committed)
      invariant Unwound(after, applied) == rows
    {
      var st := staged[i];
      var k := KeyOf(st.delta);
      var row := ToWrite(after, st);
      OutcomeStep(shard, after, staged, i);
      if row.Err? {
        assert committed + [] == committed;
        if RollsBack(row.error) { after := Rollback(after, applied); }
        return after, Err(row.error);
      }
      var d := CommittedDelta(shard, after, st.delta, row.value);
      CommittedApplies(shard, after, st.delta, row.value);
      var old_ := if k in after then Some(after[k]) else None;
      var next := if row.value.Some? then after[k := d.data.value] else after - {k};
      UnwoundOne(after, applied, k, old_, next);
      ReplayLast(rows, committed, d);
      ghost var rest := Outcome(shard, next, staged[i + 1..]).0;
      assert committed + ([d] + rest) == committed + [d] + rest;
      applied, committed, after := applied + [(k, old_)], committed + [d], next;
    }
    OutcomeNone(shard, after);
    assert staged[|staged|..] == [] && committed + [] == committed;
    r := Ok(committed);
  }

  lemma OutcomeNone(shard: nat, rows: RowMap)
    ensures Outcome(shard, rows, []) == ([], None)
  {
  }

  lemma OutcomeStep(shard: nat, rows: RowMap, staged: seq<Staged>, i: nat)
    requires i < |staged|
    ensures var row := ToWrite(rows, staged[i]);
            Outcome(shard, rows, staged[i..])
            == if row.Err? then ([], Some(row.error))
               else
                 var d := CommittedDelta(shard, rows, staged[i].delta, row.value);
                 var rest := Outcome(shard, ApplyDelta(rows, d), staged[i + 1..]);
                 ([d] + rest.0, rest.1)
  {
    hide ToWrite, CommittedDelta, ApplyDelta;
    assert staged[i..][1..] == staged[i + 1..];
  }

  lemma CommittedApplies(shard: nat, rows: RowMap, d: RowDelta, row: Option<Value>)
    ensures var c := CommittedDelta(shard, rows, d, row);
            FullRow(c) && KeyOf(c) == KeyOf(d) && (row.Some? ==> c.data.Some?)
            && ApplyDelta(rows, c) == if row.Some? then rows[KeyOf(d) := c.data.value] else rows - {KeyOf(d)}
  {
  }

  // ---- The rollback -----------------------------------------------------------------------------------------

  /** The rows after the saved ones have been put back, the last saved first. */
  function Unwound(rows: RowMap, applied: seq<(Key, Option<Value>)>): RowMap
    decreases |applied|
  {
    if applied == [] then rows
    else
      var (k, old_) := applied[|applied| - 1];
      Unwound(if old_.Some? then rows[k := old_.value] else rows - {k}, applied[..|applied| - 1])
  }

  lemma UnwoundOne(rows: RowMap, applied: seq<(Key, Option<Value>)>, k: Key, old_: Option<Value>, next: RowMap)
    requires old_ == if k in rows then Some(rows[k]) else None
    requires next - {k} == rows - {k}
    ensures Unwound(next, applied + [(k, old_)]) == Unwound(rows, applied)
  {
    var all := applied + [(k, old_)];
    assert all[..|applied|] == applied;
    assert (if old_.Some? then next[k := old_.value] else next - {k}) == rows by {
      assert forall j :: j in rows && j != k ==> j in rows - {k} && (rows - {k})[j] == rows[j];
      assert forall j :: j in next && j != k ==> j in next - {k} && (next - {k})[j] == next[j];
    }
  }

  method Rollback(rows: RowMap, applied: seq<(Key, Option<Value>)>) returns (after: RowMap)
    ensures after == Unwound(rows, applied)
  {
    after := rows;
    var n := |applied|;
    assert applied[..n] == applied;
    while n > 0
      invariant 0 <= n <= |applied| && Unwound(after, applied[..n]) == Unwound(rows, applied)
    {
      n := n - 1;
      assert applied[..n + 1][..n] == applied[..n];
      var (k, old_) := applied[n];
      after := if old_.Some? then after[k := old_.value] else after - {k};
    }
  }

  // ---- What comes out ---------------------------------------------------------------------------------------

  /** Every delta a commit hands on says everything about the row it was staged for: it may be staged for a tick. */
  lemma {:induction false} CommittedAreFull(shard: nat, rows: RowMap, staged: seq<Staged>, i: nat)
    requires i < |Outcome(shard, rows, staged).0|
    ensures var d := Outcome(shard, rows, staged).0[i];
            FullRow(d) && KeyOf(d) == KeyOf(staged[i].delta) && d.operation in {"insert", "update", "delete"}
    decreases |staged|
  {
    var row := ToWrite(rows, staged[0]).value;
    var d := CommittedDelta(shard, rows, staged[0].delta, row);
    if i > 0 { CommittedAreFull(shard, ApplyDelta(rows, d), staged[1..], i - 1); }
  }

  // ---- What a batch leaves in a row -------------------------------------------------------------------------

  function RowsAfter(shard: nat, rows: RowMap, staged: seq<Staged>): RowMap {
    ReplayDeltas(rows, Outcome(shard, rows, staged).0)
  }

  lemma {:induction false} OutcomeAppend(shard: nat, rows: RowMap, a: seq<Staged>, b: seq<Staged>)
    ensures var first, rest := Outcome(shard, rows, a), Outcome(shard, RowsAfter(shard, rows, a), b);
            Outcome(shard, rows, a + b) == if first.1.Some? then first else (first.0 + rest.0, rest.1)
    decreases |a|
  {
    hide ToWrite, CommittedDelta, ApplyDelta;
    if a == [] {
      assert a + b == b && [] + Outcome(shard, rows, b).0 == Outcome(shard, rows, b).0;
    } else {
      assert (a + b)[0] == a[0] && (a + b)[1..] == a[1..] + b;
      var row := ToWrite(rows, a[0]);
      if row.Ok? {
        var d := CommittedDelta(shard, rows, a[0].delta, row.value);
        var next := ApplyDelta(rows, d);
        OutcomeAppend(shard, next, a[1..], b);
        var done, rest := Outcome(shard, next, a[1..]).0, Outcome(shard, RowsAfter(shard, next, a[1..]), b).0;
        ReplayFront(rows, d, done);
        assert [d] + (done + rest) == [d] + done + rest;
      }
    }
  }

  /** One more staged delta behind a batch that went through. */
  lemma OneMore(shard: nat, rows: RowMap, init: seq<Staged>, st: Staged)
    requires Outcome(shard, rows, init).1.None?
    ensures var now, all := RowsAfter(shard, rows, init), init + [st];
            var row := ToWrite(now, st);
            if row.Err? then Outcome(shard, rows, all) == (Outcome(shard, rows, init).0, Some(row.error))
            else
              var d := CommittedDelta(shard, now, st.delta, row.value);
              && Outcome(shard, rows, all) == (Outcome(shard, rows, init).0 + [d], None)
              && RowsAfter(shard, rows, all) == ApplyDelta(now, d)
  {
    hide ToWrite, CommittedDelta, ApplyDelta;
    var now, done := RowsAfter(shard, rows, init), Outcome(shard, rows, init).0;
    OutcomeAppend(shard, rows, init, [st]);
    OutcomeStep(shard, now, [st], 0);
    assert [st][0..] == [st] && [st][1..] == [] && done + [] == done;
    var row := ToWrite(now, st);
    if row.Ok? {
      var d := CommittedDelta(shard, now, st.delta, row.value);
      assert [d] + [] == [d];
      ReplayLast(rows, done, d);
    }
  }

  lemma InitGoesThrough(shard: nat, rows: RowMap, staged: seq<Staged>, n: nat)
    requires Outcome(shard, rows, staged).1.None? && n <= |staged|
    ensures Outcome(shard, rows, staged[..n]).1.None?
  {
    hide Outcome, RowsAfter;
    assert staged == staged[..n] + staged[n..];
    OutcomeAppend(shard, rows, staged[..n], staged[n..]);
  }

  /** The last staged delta for the row. */
  function LastTouch(staged: seq<Staged>, k: Key): (r: Option<nat>)
    ensures r.Some? ==> r.value < |staged| && KeyOf(staged[r.value].delta) == k
    ensures forall i :: 0 <= i < |staged| && KeyOf(staged[i].delta) == k ==> r.Some? && i <= r.value
  {
    if staged == [] then None
    else
      var init := staged[..|staged| - 1];
      assert forall i :: 0 <= i < |init| ==> init[i] == staged[i];
      if KeyOf(staged[|staged| - 1].delta) == k then Some(|init|) else LastTouch(init, k)
  }

  function RowAt(rows: RowMap, k: Key): Option<Value> { if k in rows then Some(rows[k]) else None }

  /** What the staged delta leaves in its row: its data, no row, or some counter. */
  ghost predicate LeavesRow(shard: nat, st: Staged, row: Option<Value>) {
    var d := st.delta;
    if IsWrite(d) then d.data.Some? && row == Some(Prepared(shard, d.table, d.rowKey, d.data.value))
    else if d.operation == "delete" then row == None
    else IsAddition(d) && row.Some? && CounterOf(row.value).Some?
  }

  /** After a batch that went through, a row is as the last delta for it left it. */
  lemma {:induction false} LastTouchDecides(shard: nat, rows: RowMap, staged: seq<Staged>, k: Key)
    requires Outcome(shard, rows, staged).1.None?
    ensures var last, row := LastTouch(staged, k), RowAt(RowsAfter(shard, rows, staged), k);
            if last.None? then row == RowAt(rows, k) else LeavesRow(shard, staged[last.value], row)
  {
    if staged != [] {
      var init, st := staged[..|staged| - 1], staged[|staged| - 1];
      hide Outcome, RowsAfter, LeavesRow, ToWrite, CommittedDelta, ApplyDelta;
      assert staged == init + [st];
      InitGoesThrough(shard, rows, staged, |init|);
      LastTouchDecides(shard, rows, init, k);
      OneMore(shard, rows, init, st);
      StepLeaves(shard, RowsAfter(shard, rows, init), st, k);
    }
  }

  lemma StepLeaves(shard: nat, rows: RowMap, st: Staged, k: Key)
    ensures var row := ToWrite(rows, st);
            row.Ok? ==>
              var after := RowAt(ApplyDelta(rows, CommittedDelta(shard, rows, st.delta, row.value)), k);
              if KeyOf(st.delta) == k then LeavesRow(shard, st, after) else after == RowAt(rows, k)
  {
    var row := ToWrite(rows, st);
    if row.Ok? {
      CommittedApplies(shard, rows, st.delta, row.value);
      if IsAddition(st.delta) {
        CounterStays(shard, st.delta.table, st.delta.rowKey, Added(RowAt(rows, KeyOf(st.delta)), st).value);
      }
      hide Prepared, CounterOf, Added, ApplyDelta;
    }
  }

  // ---- Additions add up -------------------------------------------------------------------------------------

  function Total(staged: seq<Staged>, k: Key): int {
    if staged == [] then 0
    else
      var st := staged[|staged| - 1];
      Total(staged[..|staged| - 1], k) + if KeyOf(st.delta) == k then st.amount else 0
  }

  /** The value of a counter; a missing one counts as zero. */
  function CountAt(rows: RowMap, k: Key): Option<int> {
    if k !in rows then Some(0)
    else match CounterOf(rows[k]) case None => None case Some(c) => Some(c.value)
  }

  lemma CountIs32Bit(rows: RowMap, k: Key)
    ensures CountAt(rows, k).Some? ==> Wrap(CountAt(rows, k).value) == CountAt(rows, k).value
  {
    hide CounterOf;
  }

  lemma WrapTwice(a: int, b: int)
    ensures Wrap(Wrap(a) + b) == Wrap(a + b)
  {
    var q := (a + 0x8000_0000) / 0x1_0000_0000;
    assert Wrap(a) == a - q * 0x1_0000_0000;
    assert (a + b + 0x8000_0000 - q * 0x1_0000_0000) % 0x1_0000_0000 == (a + b + 0x8000_0000) % 0x1_0000_0000;
  }

  /** No addition is lost: after a batch that only adds to the counter, the counter has grown by the sum of the
      amounts, in 32 bits. */
  lemma {:induction false} AdditionsAddUp(shard: nat, rows: RowMap, staged: seq<Staged>, k: Key)
    requires Outcome(shard, rows, staged).1.None? && CountAt(rows, k).Some?
    requires forall i :: 0 <= i < |staged| && KeyOf(staged[i].delta) == k ==> IsAddition(staged[i].delta)
    ensures CountAt(RowsAfter(shard, rows, staged), k) == Some(Wrap(CountAt(rows, k).value + Total(staged, k)))
  {
    hide CountAt, ToWrite, CommittedDelta, ApplyDelta, Wrap;
    if staged == [] {
      CountIs32Bit(rows, k);
    } else {
      var init, st := staged[..|staged| - 1], staged[|staged| - 1];
      hide Outcome, RowsAfter;
      assert staged == init + [st];
      InitGoesThrough(shard, rows, staged, |init|);
      AdditionsAddUp(shard, rows, init, k);
      OneMore(shard, rows, init, st);
      AdditionCounts(shard, RowsAfter(shard, rows, init), st, k);
      WrapTwice(CountAt(rows, k).value + Total(init, k), st.amount);
    }
  }

  lemma AdditionCounts(shard: nat, rows: RowMap, st: Staged, k: Key)
    requires CountAt(rows, k).Some? && (KeyOf(st.delta) == k ==> IsAddition(st.delta))
    ensures var row := ToWrite(rows, st);
            row.Ok? ==>
              CountAt(ApplyDelta(rows, CommittedDelta(shard, rows, st.delta, row.value)), k)
              == if KeyOf(st.delta) == k then Some(Wrap(CountAt(rows, k).value + st.amount)) else CountAt(rows, k)
  {
    var row := ToWrite(rows, st);
    if row.Ok? {
      CommittedApplies(shard, rows, st.delta, row.value);
      if KeyOf(st.delta) == k {
        CounterStays(shard, st.delta.table, st.delta.rowKey, Added(RowAt(rows, k), st).value);
      }
      hide Prepared, CounterOf, ApplyDelta;
    }
  }

  // ---- When a failed batch leaves nothing behind ------------------------------------------------------------

  /** A staged delta that no store can take. */
  predicate Stops(st: Staged) {
    if IsWrite(st.delta) then st.delta.data.None? else st.delta.operation != "delete" && !IsAddition(st.delta)
  }

  /** Some store makes the call return here without a rollback: data is missing, or the row to add to was stored
      before or is written by the batch and is no counter. */
  predicate MayReturn(shard: nat, staged: seq<Staged>, n: nat)
    requires n < |staged|
  {
    var d := staged[n].delta;
    var last := LastTouch(staged[..n], KeyOf(d));
    || (IsWrite(d) && d.data.None?)
    || (IsAddition(d) && (last.None? || WritesNoCounter(shard, staged[last.value].delta)))
  }

  predicate WritesNoCounter(shard: nat, d: RowDelta) {
    IsWrite(d) && d.data.Some? && CounterOf(Prepared(shard, d.table, d.rowKey, d.data.value)).None?
  }

  lemma FailsAt(shard: nat, rows: RowMap, staged: seq<Staged>)
    requires Outcome(shard, rows, staged).1.Some? && !RollsBack(Outcome(shard, rows, staged).1.value)
    ensures var n := |Outcome(shard, rows, staged).0|;
            MayReturn(shard, staged, n) && forall m :: 0 <= m < n ==> !Stops(staged[m])
  {
    hide MayReturn, Stops, ToWrite;
    var n := |Outcome(shard, rows, staged).0|;
    var init, rest := staged[..n], staged[n..];
    assert staged == init + rest;
    OutcomeAppend(shard, rows, init, rest);
    hide RowsAfter;
    NoneStops(shard, rows, init);
    ReturnsThere(shard, rows, staged, n);
  }

  lemma ReturnsThere(shard: nat, rows: RowMap, staged: seq<Staged>, n: nat)
    requires n < |staged| && Outcome(shard, rows, staged[..n]).1.None?
    ensures var row := ToWrite(RowsAfter(shard, rows, staged[..n]), staged[n]);
            row.Err? && !RollsBack(row.error) ==> MayReturn(shard, staged, n)
  {
    hide Outcome, RowsAfter, Prepared, CounterParts, LastTouch;
    LastTouchDecides(shard, rows, staged[..n], KeyOf(staged[n].delta));
  }

  lemma {:induction false} NoneStops(shard: nat, rows: RowMap, staged: seq<Staged>)
    requires Outcome(shard, rows, staged).1.None?
    ensures forall m :: 0 <= m < |staged| ==> !Stops(staged[m])
    decreases |staged|
  {
    if staged != [] {
      var d := CommittedDelta(shard, rows, staged[0].delta, ToWrite(rows, staged[0]).value);
      NoneStops(shard, ApplyDelta(rows, d), staged[1..]);
      assert forall m :: 1 <= m < |staged| ==> staged[m] == staged[1..][m - 1];
    }
  }

  const ZERO := Counter(0, "", 0, 0)

  /** A store whose row for the delta before `n` changes, and which makes the delta at `n` return. */
  function Witness(staged: seq<Staged>, n: nat): RowMap
    requires 0 < n < |staged|
  {
    var before, k := staged[n - 1].delta, KeyOf(staged[n].delta);
    var rows: RowMap := if before.operation == "delete" then map[KeyOf(before) := CounterRow(ZERO)] else map[];
    if LastTouch(staged[..n], k).None? then rows[k := Null] else rows
  }

  lemma WitnessCounts(staged: seq<Staged>, n: nat, k: Key)
    requires 0 < n < |staged|
    ensures k == KeyOf(staged[n - 1].delta) ==>
              (k in Witness(staged, n) <==> staged[n - 1].delta.operation == "delete")
    ensures k in Witness(staged, n) && LastTouch(staged[..n], k).Some? ==> CounterOf(Witness(staged, n)[k]).Some?
    ensures k == KeyOf(staged[n].delta) && LastTouch(staged[..n], k).None? ==>
              RowAt(Witness(staged, n), k) == Some(Null)
  {
    assert staged[..n][n - 1] == staged[n - 1];
  }

  lemma WitnessTakes(shard: nat, staged: seq<Staged>, n: nat, i: nat)
    requires 0 < n < |staged| && i < n && !Stops(staged[i]) && (i > 0 ==> !MayReturn(shard, staged, i))
    requires Outcome(shard, Witness(staged, n), staged[..i]).1.None?
    ensures ToWrite(RowsAfter(shard, Witness(staged, n), staged[..i]), staged[i]).Ok?
  {
    var k := KeyOf(staged[i].delta);
    LastTouchDecides(shard, Witness(staged, n), staged[..i], k);
    WitnessCounts(staged, n, k);
    assert staged[..n][i] == staged[i];
    hide Outcome, RowsAfter, Prepared, CounterOf, Witness, LastTouch;
  }

  lemma {:induction false} WitnessRuns(shard: nat, staged: seq<Staged>, n: nat, i: nat)
    requires 0 < n < |staged| && i <= n
    requires forall m :: 0 <= m < n ==> !Stops(staged[m])
    requires forall m :: 0 < m < n ==> !MayReturn(shard, staged, m)
    ensures Outcome(shard, Witness(staged, n), staged[..i]).1.None?
  {
    hide Stops, MayReturn, Witness, RowsAfter, ToWrite;
    if i > 0 {
      hide Outcome;
      var init := staged[..i - 1];
      assert staged[..i] == init + [staged[i - 1]];
      WitnessRuns(shard, staged, n, i - 1);
      WitnessTakes(shard, staged, n, i - 1);
      OneMore(shard, Witness(staged, n), init, staged[i - 1]);
    }
  }

  lemma WitnessReturns(shard: nat, staged: seq<Staged>, n: nat)
    requires 0 < n < |staged| && MayReturn(shard, staged, n)
    requires Outcome(shard, Witness(staged, n), staged[..n]).1.None?
    ensures var row := ToWrite(RowsAfter(shard, Witness(staged, n), staged[..n]), staged[n]);
            row.Err? && !RollsBack(row.error)
  {
    var k := KeyOf(staged[n].delta);
    LastTouchDecides(shard, Witness(staged, n), staged[..n], k);
    WitnessCounts(staged, n, k);
    hide Outcome, RowsAfter, Prepared, CounterParts, Witness, LastTouch;
  }

  lemma WitnessMoves(shard: nat, staged: seq<Staged>, n: nat)
    requires 0 < n < |staged| && Outcome(shard, Witness(staged, n), staged[..n]).1.None?
    ensures RowsAfter(shard, Witness(staged, n), staged[..n]) != Witness(staged, n)
  {
    var k := KeyOf(staged[n - 1].delta);
    hide Outcome, RowsAfter, Prepared, CounterOf, Witness;
    LastTouchDecides(shard, Witness(staged, n), staged[..n], k);
    WitnessCounts(staged, n, k);
    assert staged[..n][n - 1] == staged[n - 1];
  }

  lemma WitnessChanges(shard: nat, staged: seq<Staged>, n: nat)
    requires 0 < n < |staged| && MayReturn(shard, staged, n)
    requires forall m :: 0 <= m < n ==> !Stops(staged[m])
    requires forall m :: 0 < m < n ==> !MayReturn(shard, staged, m)
    ensures var (done, error) := Outcome(shard, Witness(staged, n), staged);
            error.Some? && AfterBatch(shard, Witness(staged, n), staged) != Witness(staged, n)
  {
    hide Stops, MayReturn, Witness, ToWrite, Outcome;
    var rows, init, st := Witness(staged, n), staged[..n], staged[n];
    WitnessRuns(shard, staged, n, n);
    WitnessReturns(shard, staged, n);
    WitnessMoves(shard, staged, n);
    OneMore(shard, rows, init, st);
    assert staged == init + [st] + staged[n + 1..];
    OutcomeAppend(shard, rows, init + [st], staged[n + 1..]);
  }

  lemma {:induction false} FirstReturn(shard: nat, staged: seq<Staged>, n: nat)
    requires 0 < n < |staged| && MayReturn(shard, staged, n) && forall m :: 0 <= m < n ==> !Stops(staged[m])
    ensures exists rows: RowMap :: Outcome(shard, rows, staged).1.Some? && AfterBatch(shard, rows, staged) != rows
  {
    hide MayReturn, Stops, Outcome, AfterBatch;
    if m :| 0 < m < n && MayReturn(shard, staged, m) {
      FirstReturn(shard, staged, m);
    } else {
      WitnessChanges(shard, staged, n);
    }
  }

  /** A failing batch leaves every store as it was if and only if no delta but the first can make the call return
      on the spot, unless one before it always stops the batch. */
  lemma AtomicIff(shard: nat, staged: seq<Staged>)
    ensures (forall rows: RowMap ::
               Outcome(shard, rows, staged).1.Some? ==> AfterBatch(shard, rows, staged) == rows) <==>
            forall n :: 0 < n < |staged| && MayReturn(shard, staged, n) ==> exists m :: 0 <= m < n && Stops(staged[m])
  {
    hide MayReturn, Stops;
    if forall n :: 0 < n < |staged| && MayReturn(shard, staged, n) ==> exists m :: 0 <= m < n && Stops(staged[m]) {
      forall rows: RowMap | Outcome(shard, rows, staged).1.Some? ensures AfterBatch(shard, rows, staged) == rows {
        if !RollsBack(Outcome(shard, rows, staged).1.value) { FailsAt(shard, rows, staged); }
      }
    } else {
      var n :| 0 < n < |staged| && MayReturn(shard, staged, n) && forall m :: 0 <= m < n ==> !Stops(staged[m]);
      FirstReturn(shard, staged, n);
    }
  }
}
