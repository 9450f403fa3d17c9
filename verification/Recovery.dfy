/** Recovery from a snapshot and a write-ahead log. The snapshot is fuzzy: it is written while
    commits go on, so different rows may be caught at different moments. */
module Recovery {
  import opened Wrappers

  /** (table, row key) */
  type Key = (string, string)
  type Row = string
  type Store = map<Key, Row>

  /** A malformed delta is one `apply_delta` rejects: an unknown operation, or a write without data. */
  datatype Delta = Put(key: Key, row: Row) | Delete(key: Key) | Malformed

  /** `intact` is the outcome of the checksum test. */
  datatype WalEntry = WalEntry(number: nat, intact: bool, deltas: seq<Delta>)

  function Apply(s: Store, d: Delta): Store {
    match d
    case Put(k, row) => s[k := row]
    case Delete(k) => s - {k}
    case Malformed => s
  }

  function ApplyAll(s: Store, deltas: seq<Delta>): Store {
    if deltas == [] then s
    else Apply(ApplyAll(s, deltas[..|deltas| - 1]), deltas[|deltas| - 1])
  }

  predicate Replayed(e: WalEntry, minSeq: nat) { e.number > minSeq && e.intact }

  predicate WellFormed(e: WalEntry) { Malformed !in e.deltas }

  /** The store after the entries that replay does not skip. */
  function Replay(s: Store, log: seq<WalEntry>, minSeq: nat): Store {
    if log == [] then s
    else
      var s', e := Replay(s, log[..|log| - 1], minSeq), log[|log| - 1];
      if Replayed(e, minSeq) then ApplyAll(s', e.deltas) else s'
  }

  /** The store after every entry, numbers and checksums ignored: what the commits themselves did. */
  function Committed(s: Store, log: seq<WalEntry>): Store {
    if log == [] then s
    else ApplyAll(Committed(s, log[..|log| - 1]), log[|log| - 1].deltas)
  }

  function CountReplayed(log: seq<WalEntry>, minSeq: nat): nat {
    if log == [] then 0
    else CountReplayed(log[..|log| - 1], minSeq) + if Replayed(log[|log| - 1], minSeq) then 1 else 0
  }

  function MaxNumber(log: seq<WalEntry>, floor: nat): (m: nat)
    ensures m >= floor
    ensures forall i :: 0 <= i < |log| ==> log[i].number <= m
    ensures m == floor || exists i :: 0 <= i < |log| && log[i].number == m
  {
    if log == [] then floor
    else
      var m, n := MaxNumber(log[..|log| - 1], floor), log[|log| - 1].number;
      if n > m then n else m
  }

  class RowStore {
    var rows: Store

    constructor ()
      ensures rows == map[]
    {
      rows := map[];
    }

    method ApplyDelta(d: Delta) returns (ok: bool)
      modifies this
      ensures ok <==> !d.Malformed?
      ensures rows == Apply(old(rows), d)
    {
      match d
      case Put(k, row) => rows := rows[k := row]; ok := true;
      case Delete(k) => rows := rows - {k}; ok := true;
      case Malformed => ok := false;
    }
  }

  /** Replay has ended at delta `j` of entry `i`: everything before it is applied and stays applied. */
  ghost predicate StoppedAt(before: Store, entries: seq<WalEntry>, minSeq: nat, after: Store, i: nat, j: nat) {
    && i < |entries| && Replayed(entries[i], minSeq)
    && j < |entries[i].deltas| && entries[i].deltas[j].Malformed?
    && after == ApplyAll(Replay(before, entries[..i], minSeq), entries[i].deltas[..j])
  }

  /** Applies deltas up to the first malformed one. */
  method ApplyDeltas(tables: RowStore, deltas: seq<Delta>) returns (done: nat)
    modifies tables
    ensures done <= |deltas| && Malformed !in deltas[..done]
    ensures done < |deltas| ==> deltas[done].Malformed?
    ensures tables.rows == ApplyAll(old(tables.rows), deltas[..done])
  {
    for j := 0 to |deltas|
      invariant Malformed !in deltas[..j]
      invariant tables.rows == ApplyAll(old(tables.rows), deltas[..j])
    {
      assert deltas[..j + 1][..j] == deltas[..j];
      var ok := tables.ApplyDelta(deltas[j]);
      if !ok { return j; }
    }
    done := |deltas|;
  }

  /** Replays the log into `tables`. The first malformed delta of a replayed entry ends the replay
      with an error; the greatest number is then not reported at all. */
  method RecoverFromWal(entries: seq<WalEntry>, tables: RowStore, minSeq: nat)
    returns (r: Result<(nat, nat), ()>)
    modifies tables
    ensures r.Ok? <==> forall i :: 0 <= i < |entries| && Replayed(entries[i], minSeq) ==> WellFormed(entries[i])
    ensures r.Ok? ==> tables.rows == Replay(old(tables.rows), entries, minSeq)
    ensures r.Err? ==> exists i: nat, j: nat :: StoppedAt(old(tables.rows), entries, minSeq, tables.rows, i, j)
    ensures r.Ok? ==> r.value == (CountReplayed(entries, minSeq), MaxNumber(entries, minSeq))
  {
    var replayed, maxSeq := 0, minSeq;
    for i := 0 to |entries|
      invariant forall j :: 0 <= j < i && Replayed(entries[j], minSeq) ==> WellFormed(entries[j])
      invariant tables.rows == Replay(old(tables.rows), entries[..i], minSeq)
      invariant replayed == CountReplayed(entries[..i], minSeq) && maxSeq == MaxNumber(entries[..i], minSeq)
    {
      var entry := entries[i];
      assert entries[..i + 1][..i] == entries[..i];
      if entry.number > maxSeq { maxSeq := entry.number; }
      if entry.number <= minSeq { continue; }
      if !entry.intact { continue; }
      ghost var before := tables.rows;
      var done := ApplyDeltas(tables, entry.deltas);
      if done < |entry.deltas| {
        assert StoppedAt(old(tables.rows), entries, minSeq, tables.rows, i, done);
        return Err(());
      }
      assert entry.deltas[..done] == entry.deltas;
      replayed := replayed + 1;
    }
    assert entries[..|entries|] == entries;
    r := Ok((replayed, maxSeq));
  }

  /** The replay floor and the rows a boot starts from: a disk store that has rows wins over the
      snapshot, and without either replay starts at the floor 0. */
  function StartFrom(disk: Option<(Store, nat)>, snap: Option<(Store, nat)>): (Store, nat, nat) {
    if disk.Some? && disk.value.0 != map[] then (disk.value.0, disk.value.1, disk.value.1 + 1)
    else if snap.Some? then (snap.value.0, snap.value.1, snap.value.1 + 1)
    else (map[], 0, 0)
  }

  /** The recovery part of `run_server`. Unless the replay ends with an error, the counter starts past
      every number in the log. */
  method Boot(disk: Option<(Store, nat)>, snap: Option<(Store, nat)>, wal: Option<seq<WalEntry>>, tables: RowStore)
    returns (initialSeq: nat)
    requires tables.rows == map[]
    modifies tables
    ensures var (rows, floor, first) := StartFrom(disk, snap);
            && initialSeq >= first
            && (wal.None? ==> tables.rows == rows && initialSeq == first)
            && (wal.Some? && (forall e :: e in wal.value && Replayed(e, floor) ==> WellFormed(e)) ==>
                  tables.rows == Replay(rows, wal.value, floor)
                  && initialSeq > floor && forall e :: e in wal.value ==> e.number < initialSeq)
            && (wal.Some? && (exists e :: e in wal.value && Replayed(e, floor) && !WellFormed(e)) ==>
                  initialSeq == first
                  && exists i: nat, j: nat :: StoppedAt(rows, wal.value, floor, tables.rows, i, j))
  {
    var minSeq := 0;
    initialSeq := 0;
    if disk.Some? && disk.value.0 != map[] {
      tables.rows := disk.value.0;
      minSeq, initialSeq := disk.value.1, disk.value.1 + 1;
    }
    if initialSeq == 0 && snap.Some? {
      tables.rows := snap.value.0;
      minSeq, initialSeq := snap.value.1, snap.value.1 + 1;
    }
    if wal.Some? {
      var r := RecoverFromWal(wal.value, tables, minSeq);
      match r
      case Ok((_, maxSeq)) => if maxSeq + 1 > initialSeq { initialSeq := maxSeq + 1; }
      case Err(_) =>
    }
  }

  // ---- One row at a time ------------------------------------------------------------------------

  function Value(s: Store, k: Key): Option<Row> { if k in s then Some(s[k]) else None }

  predicate Writes(e: WalEntry, k: Key) {
    exists i :: 0 <= i < |e.deltas| && !e.deltas[i].Malformed? && e.deltas[i].key == k
  }

  /** What an entry that writes a row leaves there, whatever was there before. */
  lemma {:induction false} ApplyAllRow(s: Store, t: Store, deltas: seq<Delta>, k: Key)
    ensures (exists i :: 0 <= i < |deltas| && !deltas[i].Malformed? && deltas[i].key == k)
            || Value(s, k) == Value(t, k)
            ==> Value(ApplyAll(s, deltas), k) == Value(ApplyAll(t, deltas), k)
    ensures !(exists i :: 0 <= i < |deltas| && !deltas[i].Malformed? && deltas[i].key == k)
            ==> Value(ApplyAll(s, deltas), k) == Value(s, k)
  {
    if deltas != [] {
      var init, last := deltas[..|deltas| - 1], deltas[|deltas| - 1];
      ApplyAllRow(s, t, init, k);
      assert deltas[|init|] == last;
      assert forall i :: 0 <= i < |init| ==> init[i] == deltas[i];
    }
  }

  /** Rows nothing replayed writes stay; a row that is written ends the same from every start. */
  lemma {:induction false} ReplayRow(s: Store, t: Store, log: seq<WalEntry>, minSeq: nat, k: Key)
    ensures (exists i :: 0 <= i < |log| && Replayed(log[i], minSeq) && Writes(log[i], k))
            || Value(s, k) == Value(t, k)
            ==> Value(Replay(s, log, minSeq), k) == Value(Replay(t, log, minSeq), k)
    ensures !(exists i :: 0 <= i < |log| && Replayed(log[i], minSeq) && Writes(log[i], k))
            ==> Value(Replay(s, log, minSeq), k) == Value(s, k)
  {
    if log != [] {
      var init, last := log[..|log| - 1], log[|log| - 1];
      ReplayRow(s, t, init, minSeq, k);
      ApplyAllRow(Replay(s, init, minSeq), Replay(t, init, minSeq), last.deltas, k);
      assert log[|init|] == last;
      assert forall i :: 0 <= i < |init| ==> init[i] == log[i];
    }
  }

  // ---- Fuzzy snapshots --------------------------------------------------------------------------

  /** Row `k` of the snapshot was read at some moment that has seen every entry numbered up to `s`. */
  ghost predicate CaughtAt(snap: Store, log: seq<WalEntry>, s: nat, k: Key, cut: nat) {
    && cut <= |log|
    && Value(snap, k) == Value(Committed(map[], log[..cut]), k)
    && forall i :: cut <= i < |log| && Writes(log[i], k) ==> log[i].number > s
  }

  ghost predicate Caught(snap: Store, log: seq<WalEntry>, s: nat, k: Key) {
    exists cut: nat :: CaughtAt(snap, log, s, k, cut)
  }

  ghost predicate Fuzzy(snap: Store, log: seq<WalEntry>, s: nat) {
    forall k :: Caught(snap, log, s, k)
  }

  ghost predicate RowIntact(log: seq<WalEntry>, s: nat, k: Key) {
    forall i :: 0 <= i < |log| && log[i].number > s && Writes(log[i], k) ==> log[i].intact
  }

  /** The last entry numbered above `above` that writes the row; above -1 is every entry. */
  ghost function LastWriter(log: seq<WalEntry>, k: Key, above: int): (r: Option<nat>)
    ensures r.Some? ==> r.value < |log| && log[r.value].number > above && Writes(log[r.value], k)
    ensures forall i :: 0 <= i < |log| && log[i].number > above && Writes(log[i], k) ==> r.Some? && i <= r.value
  {
    if log == [] then None
    else
      var init, last := log[..|log| - 1], log[|log| - 1];
      assert forall i :: 0 <= i < |init| ==> init[i] == log[i];
      if last.number > above && Writes(last, k) then Some(|init|) else LastWriter(init, k, above)
  }

  /** What an entry leaves in a row it writes. */
  function Leaves(e: WalEntry, k: Key): Option<Row> { Value(ApplyAll(map[], e.deltas), k) }

  lemma {:induction false} CommittedEnds(start: Store, log: seq<WalEntry>, k: Key)
    ensures var w := LastWriter(log, k, -1);
            Value(Committed(start, log), k) == if w.Some? then Leaves(log[w.value], k) else Value(start, k)
  {
    if log != [] {
      var init, last := log[..|log| - 1], log[|log| - 1];
      CommittedEnds(start, init, k);
      ApplyAllRow(Committed(start, init), map[], last.deltas, k);
    }
  }

  lemma {:induction false} ReplayEnds(snap: Store, log: seq<WalEntry>, s: nat, k: Key)
    requires RowIntact(log, s, k)
    ensures var r := LastWriter(log, k, s);
            Value(Replay(snap, log, s), k) == if r.Some? then Leaves(log[r.value], k) else Value(snap, k)
  {
    if log != [] {
      var init, last := log[..|log| - 1], log[|log| - 1];
      assert forall i :: 0 <= i < |init| ==> init[i] == log[i];
      assert last == log[|init|];
      ReplayEnds(snap, init, s, k);
      ApplyAllRow(Replay(snap, init, s), map[], last.deltas, k);
    }
  }

  /** A row nobody writes after `cut` has its value of then. */
  lemma {:induction false} CommittedStays(log: seq<WalEntry>, cut: nat, k: Key)
    requires cut <= |log| && forall i :: cut <= i < |log| ==> !Writes(log[i], k)
    ensures Value(Committed(map[], log), k) == Value(Committed(map[], log[..cut]), k)
    decreases |log|
  {
    if cut == |log| {
      assert log[..cut] == log;
    } else {
      var init := log[..|log| - 1];
      assert init[..cut] == log[..cut] && forall i :: cut <= i < |init| ==> init[i] == log[i];
      CommittedStays(init, cut, k);
      ApplyAllRow(Committed(map[], init), map[], log[|log| - 1].deltas, k);
    }
  }

  /** The last entry replay takes for the row leaves what the last commit to the row left, or replay takes none. */
  ghost predicate LastWriteWins(log: seq<WalEntry>, s: nat, k: Key) {
    var r, w := LastWriter(log, k, s), LastWriter(log, k, -1);
    r.Some? ==> Leaves(log[r.value], k) == Leaves(log[w.value], k)
  }

  /** One row after recovery from a snapshot that caught it anywhere: right if and only if the last write wins. */
  lemma RecoveredRow(snap: Store, log: seq<WalEntry>, s: nat, k: Key, cut: nat)
    requires CaughtAt(snap, log, s, k, cut) && RowIntact(log, s, k)
    ensures Value(Replay(snap, log, s), k) == Value(Committed(map[], log), k) <==> LastWriteWins(log, s, k)
  {
    CommittedEnds(map[], log, k);
    ReplayEnds(snap, log, s, k);
    if LastWriter(log, k, s).None? { CommittedStays(log, cut, k); }
  }

  /** Fuzzy-snapshot recovery: replaying the entries above the snapshot's number gives exactly the committed
      store if and only if the last write of every row wins. */
  lemma FuzzyRecovery(snap: Store, log: seq<WalEntry>, s: nat)
    requires Fuzzy(snap, log, s) && forall k :: RowIntact(log, s, k)
    ensures Replay(snap, log, s) == Committed(map[], log) <==> forall k :: LastWriteWins(log, s, k)
  {
    var a, b := Replay(snap, log, s), Committed(map[], log);
    forall k ensures Value(a, k) == Value(b, k) <==> LastWriteWins(log, s, k) {
      assert Caught(snap, log, s, k);
      var cut: nat :| CaughtAt(snap, log, s, k, cut);
      RecoveredRow(snap, log, s, k, cut);
    }
    if forall k :: LastWriteWins(log, s, k) { StoresEqual(a, b); }
  }

  /** The last writer of the row is numbered above the snapshot, or no writer is. */
  ghost predicate NotInverted(log: seq<WalEntry>, s: nat, k: Key) {
    LastWriter(log, k, s).Some? ==> LastWriter(log, k, s) == LastWriter(log, k, -1)
  }

  /** Numbers alone decide when no two writers of the row are inverted around the snapshot's number; a log in
      commit order, where numbers only grow, is never inverted. */
  lemma UninvertedRecovers(snap: Store, log: seq<WalEntry>, s: nat)
    requires Fuzzy(snap, log, s) && forall k :: RowIntact(log, s, k)
    ensures (forall k :: NotInverted(log, s, k)) ==> Replay(snap, log, s) == Committed(map[], log)
    ensures (forall i, j :: 0 <= i < j < |log| ==> log[i].number < log[j].number) ==> forall k :: NotInverted(log, s, k)
  {
    FuzzyRecovery(snap, log, s);
    assert forall k :: NotInverted(log, s, k) ==> LastWriteWins(log, s, k);
  }

  lemma StoresEqual(a: Store, b: Store)
    requires forall k :: Value(a, k) == Value(b, k)
    ensures a == b
  {
    assert forall k :: k in a <==> Value(a, k).Some?;
    assert forall k :: k in b <==> Value(b, k).Some?;
    forall k | k in a ensures a[k] == b[k] { assert Value(a, k) == Value(b, k); }
  }

  // ---- Shortening the log -------------------------------------------------------------------------

  function Above(log: seq<WalEntry>, s: nat): seq<WalEntry> {
    if log == [] then []
    else Above(log[..|log| - 1], s) + if log[|log| - 1].number > s then [log[|log| - 1]] else []
  }

  /** Dropping the entries numbered up to `s` changes nothing for recovery from a snapshot at `s`. */
  lemma {:induction false} DroppingHeldEntries(snap: Store, log: seq<WalEntry>, s: nat)
    ensures Replay(snap, Above(log, s), s) == Replay(snap, log, s)
  {
    if log != [] {
      var init, last := log[..|log| - 1], log[|log| - 1];
      DroppingHeldEntries(snap, init, s);
      if last.number > s {
        assert Above(log, s)[..|Above(log, s)| - 1] == Above(init, s);
      } else {
        assert Above(log, s) == Above(init, s);
      }
    }
  }

  lemma {:induction false} ReplayConcat(snap: Store, a: seq<WalEntry>, b: seq<WalEntry>, s: nat)
    ensures Replay(snap, a + b, s) == Replay(Replay(snap, a, s), b, s)
  {
    if b == [] {
      assert a + b == a;
    } else {
      assert (a + b)[..|a + b| - 1] == a + b[..|b| - 1];
      ReplayConcat(snap, a, b[..|b| - 1], s);
    }
  }

  /** A row the rotation puts at risk: an entry above the snapshot's number is rotated away with the
      old file, and no entry of the new file writes the row again. */
  ghost predicate RotatedAway(gone: seq<WalEntry>, kept: seq<WalEntry>, s: nat, k: Key) {
    && (exists i :: 0 <= i < |gone| && Replayed(gone[i], s) && Writes(gone[i], k))
    && !(exists i :: 0 <= i < |kept| && Replayed(kept[i], s) && Writes(kept[i], k))
  }

  /** Rotation renames the whole file away, entries above the snapshot's number included. Recovery
      from the new file is right if and only if, for every row put at risk, the snapshot happens to
      hold the value the lost entries wrote. */
  lemma RotationIsExact(snap: Store, gone: seq<WalEntry>, kept: seq<WalEntry>, s: nat)
    ensures Replay(snap, kept, s) == Replay(snap, gone + kept, s) <==>
            forall k :: RotatedAway(gone, kept, s, k) ==> Value(snap, k) == Value(Replay(snap, gone, s), k)
  {
    ReplayConcat(snap, gone, kept, s);
    var mid := Replay(snap, gone, s);
    var a, b := Replay(snap, kept, s), Replay(mid, kept, s);
    forall k
      ensures Value(a, k) == Value(b, k) <==> (RotatedAway(gone, kept, s, k) ==> Value(snap, k) == Value(mid, k))
    {
      ReplayRow(snap, mid, kept, s, k);
      ReplayRow(mid, mid, kept, s, k);
      ReplayRow(snap, snap, gone, s, k);
    }
    if forall k :: RotatedAway(gone, kept, s, k) ==> Value(snap, k) == Value(mid, k) {
      StoresEqual(a, b);
    }
  }

  /** The guard that makes rotation safe: nothing above the snapshot's number is in the old file. */
  lemma QuietRotation(snap: Store, gone: seq<WalEntry>, kept: seq<WalEntry>, s: nat)
    requires forall i :: 0 <= i < |gone| ==> gone[i].number <= s
    ensures Replay(snap, kept, s) == Replay(snap, gone + kept, s)
  {
    RotationIsExact(snap, gone, kept, s);
  }

  // ---- Where the code falls short -------------------------------------------------------------------

  const K: Key := ("players", "p1")

  lemma {:induction false} CommittedAbove(s: Store, log: seq<WalEntry>)
    requires forall i :: 0 <= i < |log| ==> Replayed(log[i], 0)
    ensures Committed(s, log) == Replay(s, log, 0)
  {
    if log != [] {
      assert forall i :: 0 <= i < |log| - 1 ==> log[..|log| - 1][i] == log[i];
      assert Replayed(log[|log| - 1], 0);
      CommittedAbove(s, log[..|log| - 1]);
    }
  }

  lemma {:induction false} CommittedFirst(e: WalEntry, rest: seq<WalEntry>)
    ensures Committed(map[], [e] + rest) == Committed(ApplyAll(map[], e.deltas), rest)
  {
    var log := [e] + rest;
    if rest == [] {
      assert log == [e] && [e][..0] == [];
    } else {
      assert log[..|log| - 1] == [e] + rest[..|rest| - 1];
      CommittedFirst(e, rest[..|rest| - 1]);
    }
  }

  /** The very first entry carries number 0, and without a snapshot the replay floor is 0 as well.
      Recovery without a snapshot is right if and only if later entries rewrite every row that the
      first one left behind. */
  lemma FirstEntryIsSkipped(first: WalEntry, rest: seq<WalEntry>)
    requires first.number == 0 && forall i :: 0 <= i < |rest| ==> Replayed(rest[i], 0)
    ensures Replay(map[], [first] + rest, 0) == Committed(map[], [first] + rest) <==>
            forall k :: k in ApplyAll(map[], first.deltas) ==>
              exists i :: 0 <= i < |rest| && Writes(rest[i], k)
  {
    var left := ApplyAll(map[], first.deltas);
    ReplayConcat(map[], [first], rest, 0);
    assert [first][..0] == [];
    CommittedFirst(first, rest);
    CommittedAbove(left, rest);
    var a, b := Replay(map[], rest, 0), Replay(left, rest, 0);
    forall k
      ensures Value(a, k) == Value(b, k) <==> (k in left ==> exists i :: 0 <= i < |rest| && Writes(rest[i], k))
    {
      ReplayRow(map[], left, rest, 0, k);
      ReplayRow(left, left, rest, 0, k);
    }
    if forall k :: k in left ==> exists i :: 0 <= i < |rest| && Writes(rest[i], k) { StoresEqual(a, b); }
  }

  /** Rotation with one later entry in the old file: the write is gone although it was logged. */
  lemma RotationLosesLaterEntry()
    ensures var gone := [WalEntry(1, true, [Put(K, "a")]), WalEntry(2, true, [Put(K, "b")])];
            var snap := map[K := "a"];
            && Fuzzy(snap, gone, 1)
            && Replay(snap, [], 1) != Committed(map[], gone)
            && Replay(snap, gone, 1) == Committed(map[], gone)
  {
    var e1, e2 := WalEntry(1, true, [Put(K, "a")]), WalEntry(2, true, [Put(K, "b")]);
    var gone, snap := [e1, e2], map[K := "a"];
    TwoWrites(1, 2);
    assert map[K := "a"][K] != map[K := "b"][K];
    forall k ensures Caught(snap, gone, 1, k) {
      assert Value(snap, k) == Value(Committed(map[], gone[..1]), k);
      assert CaughtAt(snap, gone, 1, k, 1);
    }
  }

  /** Commits take their numbers only after they are done, so two commits to one row may be numbered
      in the opposite order. A snapshot between the two numbers then rolls the row back. */
  lemma InvertedNumbersRollBack()
    ensures var log := [WalEntry(2, true, [Put(K, "a")]), WalEntry(1, true, [Put(K, "b")])];
            var snap := map[K := "b"];
            Fuzzy(snap, log, 1) && Replay(snap, log, 1) != Committed(map[], log)
  {
    var log, snap := [WalEntry(2, true, [Put(K, "a")]), WalEntry(1, true, [Put(K, "b")])], map[K := "b"];
    TwoWrites(2, 1);
    assert map[K := "a"][K] != map[K := "b"][K];
    forall k ensures Caught(snap, log, 1, k) {
      assert log[..2] == log;
      assert CaughtAt(snap, log, 1, k, 2);
    }
  }

  lemma TwoWrites(n1: nat, n2: nat)
    ensures var log := [WalEntry(n1, true, [Put(K, "a")]), WalEntry(n2, true, [Put(K, "b")])];
            && Committed(map[], log[..1]) == map[K := "a"]
            && Committed(map[], log) == map[K := "b"]
            && (n1 == 1 && n2 == 2 ==> Replay(map[K := "a"], log, 1) == map[K := "b"])
            && (n1 == 2 && n2 == 1 ==> Replay(map[K := "b"], log, 1) == map[K := "a"])
  {
    var e1, e2 := WalEntry(n1, true, [Put(K, "a")]), WalEntry(n2, true, [Put(K, "b")]);
    var log := [e1, e2];
    assert log[..1] == [e1] && log[..2] == log && [e1][..0] == [] && [Put(K, "a")][..0] == []
        && [Put(K, "b")][..0] == [];
    assert forall s: Store :: ApplyAll(s, e1.deltas) == s[K := "a"];
    assert forall s: Store :: ApplyAll(s, e2.deltas) == s[K := "b"];
    forall s: Store, m: nat
      ensures Replay(s, log, m) == (if n2 > m then (if n1 > m then s[K := "a"] else s)[K := "b"]
                                    else if n1 > m then s[K := "a"] else s)
    {
      assert Replay(s, [e1], m) == if n1 > m then s[K := "a"] else s;
      assert log[..|log| - 1] == [e1];
    }
  }
}
