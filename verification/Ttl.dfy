/** The TTL manager: a heap with lazy deletion that behaves like a plain map of deadlines. */
module Ttl {
  import opened Wrappers
  import opened MinHeap

  type Key = (string, string)

  function KeyOf(e: TtlEntry): Key { (e.table, e.rowKey) }

  function EntryOf(k: Key, at: nat): TtlEntry { TtlEntry(k.0, k.1, at) }

  // ---- The map of deadlines --------------------------------------------------------------------

  type Deadlines = map<Key, nat>

  /** What stays after everything due at `now` has been collected. */
  function Later(m: Deadlines, now: nat): Deadlines { map k | k in m && m[k] > now :: m[k] }

  /** `r` is exactly the deadlines of `m` at or before `now`, each once, earliest first. */
  ghost predicate Collects(r: seq<TtlEntry>, m: Deadlines, now: nat) {
    && (forall k, d: nat :: EntryOf(k, d) in r <==> k in m && m[k] == d <= now)
    && (forall i, j :: 0 <= i < j < |r| ==> KeyOf(r[i]) != KeyOf(r[j]))
    && (forall i, j :: 0 <= i < j < |r| ==> r[i].expiresAt <= r[j].expiresAt)
  }

  class TtlManager {
    const heap: Heap
    var index: Deadlines

    /** Every live deadline has its entry in the heap; the heap may hold any number of ghosts. */
    ghost predicate Valid()
      reads this, heap
    {
      heap.Valid() && forall k :: k in index ==> EntryOf(k, index[k]) in heap.data
    }

    constructor ()
      ensures Valid() && fresh(heap) && index == map[]
    {
      heap := new Heap();
      index := map[];
    }

    method SetExpiresAt(table: string, rowKey: string, at: nat)
      requires Valid()
      modifies this, heap
      ensures Valid() && index == old(index)[(table, rowKey) := at]
    {
      index := index[(table, rowKey) := at];
      var entry := TtlEntry(table, rowKey, at);
      ghost var before := heap.data;
      heap.Push(entry);
      forall k | k in index ensures EntryOf(k, index[k]) in heap.data {
        assert EntryOf(k, index[k]) in multiset(before) + multiset{entry};
      }
    }

    method SetTtl(table: string, rowKey: string, now: nat, ttl: nat)
      requires Valid()
      modifies this, heap
      ensures Valid() && index == old(index)[(table, rowKey) := now + ttl]
    {
      SetExpiresAt(table, rowKey, now + ttl);
    }

    method CancelTtl(table: string, rowKey: string) returns (cancelled: bool)
      requires Valid()
      modifies this
      ensures Valid() && index == old(index) - {(table, rowKey)}
      ensures cancelled <==> (table, rowKey) in old(index)
    {
      cancelled := (table, rowKey) in index;
      index := index - {(table, rowKey)};
    }

    /** A deadline that is reported is one that collection will find in the heap. */
    method GetTtl(table: string, rowKey: string) returns (r: Option<nat>)
      requires Valid()
      ensures r.None? <==> (table, rowKey) !in index
      ensures r.Some? ==> index[(table, rowKey)] == r.value && TtlEntry(table, rowKey, r.value) in heap.data
    {
      assert (table, rowKey) in index ==> EntryOf((table, rowKey), index[(table, rowKey)]) in heap.data;
      r := if (table, rowKey) in index then Some(index[(table, rowKey)]) else None;
    }

    method CollectExpired(now: nat) returns (expired: seq<TtlEntry>)
      requires Valid()
      modifies this, heap
      ensures Valid()
      ensures Collects(expired, old(index), now)
      ensures index == Later(old(index), now)
      ensures forall e :: e in heap.data ==> e.expiresAt > now
    {
      expired := [];
      while heap.data != [] && heap.data[0].expiresAt <= now
        invariant Valid()
        invariant Progress(expired, old(index), index, heap.data, now)
        decreases |heap.data|
      {
        ghost var data, live, done := heap.data, index, expired;
        var entry := heap.Pop();
        PopKeeps(data, heap.data, entry, live);
        if KeyOf(entry) in index && index[KeyOf(entry)] == entry.expiresAt {
          index := index - {KeyOf(entry)};
          expired := expired + [entry];
          Collected(done, old(index), live, data, heap.data, entry, now);
        }
      }
      Finished(expired, old(index), index, heap.data, now);
    }
  }

  /** What the collection loop has done so far: collected and remaining deadlines split the old map,
      and nothing left in the heap is earlier than anything collected. */
  ghost predicate Progress(r: seq<TtlEntry>, m0: Deadlines, m: Deadlines, data: seq<TtlEntry>, now: nat) {
    && (forall k :: k in m ==> k in m0 && m[k] == m0[k])
    && (forall k, d: nat :: EntryOf(k, d) in r <==> k in m0 && k !in m && m0[k] == d)
    && (forall e :: e in r ==> e.expiresAt <= now && forall f :: f in data ==> e.expiresAt <= f.expiresAt)
    && (forall i, j :: 0 <= i < j < |r| ==> KeyOf(r[i]) != KeyOf(r[j]))
    && (forall i, j :: 0 <= i < j < |r| ==> r[i].expiresAt <= r[j].expiresAt)
  }

  lemma PopKeeps(before: seq<TtlEntry>, after: seq<TtlEntry>, e: TtlEntry, m: Deadlines)
    requires HeapOrdered(before) && before != [] && e == before[0]
    requires multiset(after) == multiset(before) - multiset{e}
    requires forall k :: k in m ==> EntryOf(k, m[k]) in before
    ensures forall f :: f in after ==> f in before && e.expiresAt <= f.expiresAt
    ensures forall k :: k in m && EntryOf(k, m[k]) != e ==> EntryOf(k, m[k]) in after
  {
    forall f | f in after ensures f in before && e.expiresAt <= f.expiresAt {
      assert f in multiset(after) && f in multiset(before);
      var i :| 0 <= i < |before| && before[i] == f;
      TopIsEarliest(before, i);
    }
    forall k | k in m && EntryOf(k, m[k]) != e ensures EntryOf(k, m[k]) in after {
      assert EntryOf(k, m[k]) in multiset(before) - multiset{e};
    }
  }

  lemma Collected(r: seq<TtlEntry>, m0: Deadlines, m: Deadlines, before: seq<TtlEntry>,
                  after: seq<TtlEntry>, e: TtlEntry, now: nat)
    requires Progress(r, m0, m, before, now)
    requires e in before && e.expiresAt <= now
    requires forall f :: f in after ==> f in before && e.expiresAt <= f.expiresAt
    requires KeyOf(e) in m && m[KeyOf(e)] == e.expiresAt
    ensures Progress(r + [e], m0, m - {KeyOf(e)}, after, now)
  {
    var r', m' := r + [e], m - {KeyOf(e)};
    assert e == EntryOf(KeyOf(e), e.expiresAt);
    forall k, d: nat ensures EntryOf(k, d) in r' <==> k in m0 && k !in m' && m0[k] == d {
      assert EntryOf(k, d) in r' <==> EntryOf(k, d) in r || EntryOf(k, d) == e;
    }
    forall i | 0 <= i < |r| ensures KeyOf(r[i]) != KeyOf(e) && r[i].expiresAt <= e.expiresAt {
      assert r[i] in r && r[i] == EntryOf(KeyOf(r[i]), r[i].expiresAt);
    }
  }

  lemma Finished(r: seq<TtlEntry>, m0: Deadlines, m: Deadlines, data: seq<TtlEntry>, now: nat)
    requires Progress(r, m0, m, data, now) && HeapOrdered(data)
    requires data == [] || data[0].expiresAt > now
    requires forall k :: k in m ==> EntryOf(k, m[k]) in data
    ensures forall e :: e in data ==> e.expiresAt > now
    ensures m == Later(m0, now) && Collects(r, m0, now)
  {
    forall e | e in data ensures e.expiresAt > now {
      var i :| 0 <= i < |data| && data[i] == e;
      TopIsEarliest(data, i);
    }
    forall k | k in m0 ensures k in m <==> m0[k] > now {
      if k !in m { assert EntryOf(k, m0[k]) in r; }
    }
  }

  // ---- Whole runs ---------------------------------------------------------------------------------

  datatype Op = Set(key: Key, at: nat) | Cancel(key: Key) | Collect(now: nat)

  /** The deadlines after a run, as the method contracts give them call by call. */
  function Run(ops: seq<Op>): Deadlines {
    if ops == [] then map[]
    else
      var m := Run(ops[..|ops| - 1]);
      match ops[|ops| - 1]
      case Set(k, at) => m[k := at]
      case Cancel(k) => m - {k}
      case Collect(now) => Later(m, now)
  }

  ghost predicate Touches(op: Op, k: Key) { !op.Collect? && op.key == k }

  /** The operation at `i` is a set that nothing since has cancelled, superseded or collected. */
  ghost predicate LiveSet(ops: seq<Op>, i: nat, k: Key) {
    && i < |ops| && ops[i].Set? && ops[i].key == k
    && forall j :: i < j < |ops| ==>
         !Touches(ops[j], k) && (ops[j].Collect? ==> ops[j].now < ops[i].at)
  }

  /** A key has a deadline exactly if its latest set or cancel is a set whose deadline no later
      collection has reached, and then that is the deadline: after any run a collection returns no
      cancelled and no superseded deadline, and misses none. */
  lemma {:induction false} RunIsLastSet(ops: seq<Op>, k: Key)
    ensures k in Run(ops) <==> exists i: nat :: LiveSet(ops, i, k)
    ensures forall i: nat :: LiveSet(ops, i, k) ==> Run(ops)[k] == ops[i].at
  {
    if ops != [] {
      var init, last := ops[..|ops| - 1], ops[|ops| - 1];
      RunIsLastSet(init, k);
      forall i: nat | i < |init|
        ensures LiveSet(ops, i, k) <==>
                LiveSet(init, i, k) && !Touches(last, k) && (last.Collect? ==> last.now < ops[i].at)
      {
        ExtendLive(ops, i, k);
      }
      if k in Run(ops) {
        if Touches(last, k) {
          assert LiveSet(ops, |init|, k);
        } else {
          var i: nat :| LiveSet(init, i, k);
          assert LiveSet(ops, i, k);
        }
      }
    }
  }

  lemma ExtendLive(ops: seq<Op>, i: nat, k: Key)
    requires i < |ops| - 1
    ensures var init, last := ops[..|ops| - 1], ops[|ops| - 1];
            LiveSet(ops, i, k) <==>
            LiveSet(init, i, k) && !Touches(last, k) && (last.Collect? ==> last.now < ops[i].at)
  {
    var init := ops[..|ops| - 1];
    assert forall j :: 0 <= j < |init| ==> init[j] == ops[j];
  }

  /** Whether the collection at position `i` of a run returns the key. */
  ghost predicate Returns(ops: seq<Op>, i: nat, k: Key) {
    i < |ops| && ops[i].Collect? && k in Run(ops[..i]) && Run(ops[..i])[k] <= ops[i].now
  }

  /** Between two collections that return the same key, the key was set again. */
  lemma ReturnedOnceForEachSet(ops: seq<Op>, i: nat, j: nat, k: Key)
    requires i < j && Returns(ops, i, k) && Returns(ops, j, k)
    ensures exists n :: i < n < j && ops[n].Set? && ops[n].key == k
  {
    var before := ops[..j];
    RunIsLastSet(before, k);
    var n: nat :| LiveSet(before, n, k);
    if n <= i {
      assert n < i && before[i] == ops[i];
      var early := ops[..i];
      assert forall m :: 0 <= m < i ==> early[m] == before[m];
      assert LiveSet(early, n, k);
      RunIsLastSet(early, k);
    }
  }
}
