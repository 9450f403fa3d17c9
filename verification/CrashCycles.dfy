/** Sequence numbers, snapshots and log rotation across crashes. Commits are identified by an id that
    is never reused; numbers are handed out by a counter that restarts at every boot. */
module CrashCycles {
  import opened Wrappers

  type Id = nat

  /** What one slot of the log file holds. A torn frame is a partial write left by a crash; the reader
      stops at the first one. */
  datatype Frame = Whole(number: nat, id: Id, intact: bool) | Torn

  /** `holds` is the set of commits whose effect the snapshot file contains. */
  datatype Snapshot = Snapshot(number: nat, holds: set<Id>)

  datatype State = State(
    // on disk
    snapshot: Option<Snapshot>,
    log: seq<Frame>,
    // in memory: the counter, the commits in the tables, those the boot restored, and the numbers
    // handed out since the boot, of which `pending` have not reached the log
    next: nat,
    present: set<Id>,
    restored: set<Id>,
    numbered: map<nat, Id>,
    pending: set<nat>,
    // every commit whose entry ever reached the log (its caller has been answered)
    logged: set<Id>)

  datatype Action =
    | Commit(id: Id)
    | TakeNumber(id: Id)
    | Append(number: nat)
    | LoseAppend(number: nat)
    | SaveSnapshot(snap: Snapshot)
    | Rotate
    | Tear
    | Corrupt(at: nat)
    | Reboot

  // ---- Reading the disk -------------------------------------------------------------------------

  /** The entries a reader sees. */
  function Readable(log: seq<Frame>): seq<Frame> {
    if log == [] || log[0].Torn? then [] else [log[0]] + Readable(log[1..])
  }

  /** The replay floor of a boot. */
  function Floor(s: State): nat { if s.snapshot.Some? then s.snapshot.value.number else 0 }

  function Held(s: State): set<Id> { if s.snapshot.Some? then s.snapshot.value.holds else {} }

  /** The entries a boot replays. */
  function Replays(f: Frame, floor: nat): bool { f.Whole? && f.number > floor && f.intact }

  function ReplayedIds(log: seq<Frame>, floor: nat): set<Id> {
    set f | f in Readable(log) && Replays(f, floor) :: f.id
  }

  function MaxNumber(log: seq<Frame>, floor: nat): (m: nat)
    ensures m >= floor
    ensures forall f :: f in Readable(log) ==> f.Whole? && f.number <= m
  {
    if log == [] || log[0].Torn? then floor
    else
      var m := MaxNumber(log[1..], floor);
      if log[0].number > m then log[0].number else m
  }

  /** The first number after a boot; the log file exists from the first boot on. */
  function FirstNumber(s: State): nat {
    var afterSnapshot := if s.snapshot.Some? then s.snapshot.value.number + 1 else 0;
    var afterLog := MaxNumber(s.log, Floor(s)) + 1;
    if afterLog > afterSnapshot then afterLog else afterSnapshot
  }

  // ---- Steps --------------------------------------------------------------------------------------

  ghost predicate Enabled(s: State, a: Action) {
    match a
    case Commit(id) => id !in s.present && id !in s.logged && id !in s.numbered.Values
                       && (forall f :: f in s.log && f.Whole? ==> f.id != id) && id !in Held(s)
    case TakeNumber(id) => id in s.present && id !in s.restored && id !in s.numbered.Values
    case Append(n) => n in s.pending && n in s.numbered
    case LoseAppend(n) => n in s.pending
    // started by the worker that was handed `number`, so after every commit numbered up to it; only one
    // snapshot is written at a time, so it also sees what the one before it saw
    case SaveSnapshot(snap) =>
      snap.number in s.numbered
      && s.restored + Held(s) <= snap.holds <= s.present
      && forall n :: n in s.numbered && n <= snap.number ==> s.numbered[n] in snap.holds
    case Rotate => s.snapshot.Some?
    case Tear => true
    case Corrupt(i) => i < |s.log| && s.log[i].Whole?
    case Reboot => true
  }

  ghost function Step(s: State, a: Action): State
    requires Enabled(s, a)
  {
    match a
    case Commit(id) => s.(present := s.present + {id})
    case TakeNumber(id) =>
      s.(next := s.next + 1, numbered := s.numbered[s.next := id], pending := s.pending + {s.next})
    case Append(n) =>
      s.(log := s.log + [Whole(n, s.numbered[n], true)], pending := s.pending - {n},
         logged := s.logged + {s.numbered[n]})
    case LoseAppend(n) => s.(pending := s.pending - {n})
    // an older snapshot never shadows a newer one
    case SaveSnapshot(snap) =>
      if s.snapshot.Some? && snap.number <= s.snapshot.value.number then s
      else s.(snapshot := Some(snap))
    case Rotate => s.(log := [])
    case Tear => s.(log := s.log + [Torn])
    case Corrupt(i) => s.(log := s.log[i := s.log[i].(intact := false)])
    case Reboot =>
      var ids := Held(s) + ReplayedIds(s.log, Floor(s));
      s.(next := FirstNumber(s), present := ids, restored := ids, numbered := map[], pending := {})
  }

  ghost predicate IsRun(states: seq<State>, actions: seq<Action>) {
    && |states| == |actions| + 1
    && states[0] == Empty()
    && forall i :: 0 <= i < |actions| ==> Enabled(states[i], actions[i]) && states[i + 1] == Step(states[i], actions[i])
  }

  /** A first boot without a log file: numbering starts at 0. */
  function Empty(): State { State(None, [], 0, {}, {}, map[], {}, {}) }

  // ---- The invariant of every run -----------------------------------------------------------------

  /** The counter is ahead of everything a later boot can read, and the snapshot holds every intact
      entry that its number makes a boot skip. */
  ghost predicate Invariant(s: State) {
    && (s.snapshot.Some? ==> s.snapshot.value.number < s.next)
    && (forall f :: f in Readable(s.log) ==> f.Whole? && f.number < s.next)
    && (forall n :: n in s.numbered ==> n < s.next && s.numbered[n] in s.present)
    && (forall n :: n in s.pending ==> n in s.numbered)
    && s.restored <= s.present
    && (forall f :: f in Readable(s.log) && f.intact && f.number > 0 ==> KnownEntry(s, f.number, f.id))
    && (s.snapshot.Some? ==> forall n :: n in s.numbered && 0 < n <= s.snapshot.value.number ==>
          s.numbered[n] in s.snapshot.value.holds)
    && (s.snapshot.Some? ==> forall f :: f in Readable(s.log) && f.intact && 0 < f.number <= s.snapshot.value.number ==>
          f.id in s.snapshot.value.holds)
  }

  /** The entry is one of this boot, or one the boot restored. */
  ghost predicate KnownEntry(s: State, number: nat, id: Id) {
    id in s.restored || (number in s.numbered && s.numbered[number] == id)
  }

  lemma {:induction false} ReadableAppend(log: seq<Frame>, f: Frame)
    ensures Readable(log + [f]) == Readable(log) || (f.Whole? && Readable(log + [f]) == Readable(log) + [f])
    ensures f.Torn? ==> Readable(log + [f]) == Readable(log)
  {
    if log == [] {
      assert log + [f] == [f];
    } else {
      assert (log + [f])[1..] == log[1..] + [f];
      ReadableAppend(log[1..], f);
    }
  }

  ghost predicate HasNumber(frames: seq<Frame>, number: nat) {
    exists g :: g in frames && g.Whole? && g.number == number
  }

  lemma {:induction false} ReadableWhole(log: seq<Frame>)
    ensures forall f :: f in Readable(log) ==> f.Whole? && f in log
  {
    if log != [] { ReadableWhole(log[1..]); }
  }

  lemma {:induction false} ReadableCorrupt(log: seq<Frame>, i: nat)
    requires i < |log| && log[i].Whole?
    ensures forall f :: f in Readable(log[i := log[i].(intact := false)]) ==>
              f.Whole? && (f in Readable(log) || (!f.intact && HasNumber(Readable(log), f.number)))
  {
    var log' := log[i := log[i].(intact := false)];
    ReadableWhole(log);
    ReadableWhole(log');
    if log[0].Whole? {
      if i == 0 {
        assert log'[1..] == log[1..];
        assert log[0] in Readable(log);
      } else {
        assert log'[1..] == log[1..][i - 1 := log[i].(intact := false)];
        ReadableCorrupt(log[1..], i - 1);
      }
    }
  }

  lemma StepKeepsInvariant(s: State, a: Action)
    requires Invariant(s) && Enabled(s, a)
    ensures Invariant(Step(s, a))
  {
    match a
    case Append(n) => AppendKeepsInvariant(s, n);
    case Tear => ReadableAppend(s.log, Torn);
    case Corrupt(i) => CorruptKeepsInvariant(s, i);
    case SaveSnapshot(snap) => SnapshotKeepsInvariant(s, snap);
    case Reboot => RebootKeepsInvariant(s);
    case _ =>
  }

  lemma AppendKeepsInvariant(s: State, n: nat)
    requires Invariant(s) && Enabled(s, Append(n))
    ensures Invariant(Step(s, Append(n)))
  {
    ReadableAppend(s.log, Whole(n, s.numbered[n], true));
  }

  lemma CorruptKeepsInvariant(s: State, i: nat)
    requires Invariant(s) && Enabled(s, Corrupt(i))
    ensures Invariant(Step(s, Corrupt(i)))
  {
    ReadableCorrupt(s.log, i);
    forall f | f in Readable(Step(s, Corrupt(i)).log) ensures f.Whole? && f.number < s.next {
      if f !in Readable(s.log) {
        var g :| g in Readable(s.log) && g.Whole? && g.number == f.number;
      }
    }
  }

  lemma SnapshotKeepsInvariant(s: State, snap: Snapshot)
    requires Invariant(s) && Enabled(s, SaveSnapshot(snap))
    ensures Invariant(Step(s, SaveSnapshot(snap)))
  {
    forall f | f in Readable(s.log) && f.intact && 0 < f.number <= snap.number ensures f.id in snap.holds {
      assert KnownEntry(s, f.number, f.id);
    }
  }

  lemma RebootKeepsInvariant(s: State)
    requires Invariant(s)
    ensures Invariant(Step(s, Reboot))
  {
    var s' := Step(s, Reboot);
    forall f | f in Readable(s.log) && f.intact && f.number > 0 ensures f.id in s'.restored {
      if f.number > Floor(s) { assert f.id in ReplayedIds(s.log, Floor(s)); }
    }
  }

  // ---- Every run ----------------------------------------------------------------------------------

  lemma {:induction false} EveryRun(states: seq<State>, actions: seq<Action>, i: nat)
    requires IsRun(states, actions) && i < |states|
    ensures Invariant(states[i])
  {
    if i > 0 {
      EveryRun(states, actions, i - 1);
      StepKeepsInvariant(states[i - 1], actions[i - 1]);
    }
  }

  /** In every reachable state the next number is past the snapshot's number and past every number a
      reader of the log sees, bad checksums included. */
  lemma NextNumberIsNew(states: seq<State>, actions: seq<Action>, i: nat)
    requires IsRun(states, actions) && i < |states|
    ensures var s := states[i];
            && (s.snapshot.Some? ==> s.snapshot.value.number < s.next)
            && forall f :: f in Readable(s.log) && f.Whole? ==> f.number < s.next
  {
    EveryRun(states, actions, i);
  }

  /** In every reachable state, whatever a boot would skip because of its number is held by the
      snapshot it boots from, except for an entry numbered 0. */
  lemma SkippedEntriesAreHeld(states: seq<State>, actions: seq<Action>, i: nat, f: Frame)
    requires IsRun(states, actions) && i < |states|
    requires f in Readable(states[i].log) && f.Whole? && f.intact && f.number <= Floor(states[i])
    ensures f.id in Held(states[i]) || f.number == 0
  {
    EveryRun(states, actions, i);
  }

  /** The exception is real: the first entry of a fresh system does not survive the first crash. */
  lemma FirstEntryIsLost()
    ensures exists states: seq<State>, actions: seq<Action> ::
              IsRun(states, actions) && |states| == 5
              && 7 in states[4].logged && 7 !in states[4].present
  {
    var s2 := State(None, [], 1, {7}, {}, map[0 := 7], {0}, {});
    var s3 := State(None, [Whole(0, 7, true)], 1, {7}, {}, map[0 := 7], {}, {7});
    var states := [Empty(), Empty().(present := {7}), s2, s3, Step(s3, Reboot)];
    var actions := [Commit(7), TakeNumber(7), Append(0), Reboot];
    assert states[1] == Step(states[0], Commit(7));
    assert states[2] == Step(states[1], TakeNumber(7));
    assert states[3] == Step(states[2], Append(0));
    assert Readable(s3.log) == [Whole(0, 7, true)];
    assert IsRun(states, actions);
  }

  /** Behind a torn frame nothing is ever read again: entries appended later, by this boot or the next
      ones, are not replayed as long as the log is not rotated. */
  lemma TornFrameHidesAppends(s: State, a: Action)
    requires Torn in s.log && Enabled(s, a) && !a.Rotate? && !a.Corrupt?
    ensures Torn in Step(s, a).log && Readable(Step(s, a).log) == Readable(s.log)
  {
    match a
    case Append(n) => TornHides(s.log, Whole(n, s.numbered[n], true));
    case Tear => TornHides(s.log, Torn);
    case _ =>
  }

  lemma {:induction false} TornHides(log: seq<Frame>, f: Frame)
    requires Torn in log
    ensures Readable(log + [f]) == Readable(log) && Torn in log + [f]
  {
    if log[0].Whole? {
      assert (log + [f])[1..] == log[1..] + [f];
      TornHides(log[1..], f);
    }
  }

  // ---- Which steps lose a logged commit ---------------------------------------------------------------

  /** What a boot brings back: what the snapshot holds and what it replays. */
  function Restorable(s: State): set<Id> { Held(s) + ReplayedIds(s.log, Floor(s)) }

  /** A crash at this moment loses no commit whose entry ever reached the log. */
  ghost predicate Survives(s: State) { s.logged <= Step(s, Reboot).present }

  /** Another frame than the one at `i` makes a boot replay the commit. */
  ghost predicate ReplayedElsewhere(s: State, i: nat, id: Id) {
    exists j :: 0 <= j < |Readable(s.log)| && j != i && Replays(Readable(s.log)[j], Floor(s))
        && Readable(s.log)[j].id == id
  }

  /** What a step has to find so that it loses nothing. */
  ghost predicate LosesNothing(s: State, a: Action)
    requires Enabled(s, a)
  {
    match a
    case Append(n) => s.numbered[n] in Restorable(s) || (Torn !in s.log && n > Floor(s))
    case Rotate => s.logged <= Held(s)
    case Corrupt(i) =>
      i < |Readable(s.log)| && Replays(s.log[i], Floor(s)) && s.log[i].id in s.logged ==>
        s.log[i].id in Held(s) || ReplayedElsewhere(s, i, s.log[i].id)
    case _ => true
  }

  lemma {:induction false} ReadableIsPrefix(log: seq<Frame>)
    ensures |Readable(log)| <= |log| && Readable(log) == log[..|Readable(log)|]
    ensures Torn !in log ==> Readable(log) == log
  {
    if log != [] && log[0].Whole? {
      ReadableIsPrefix(log[1..]);
      assert log == [log[0]] + log[1..];
    }
  }

  lemma {:induction false} ReadableOverwrite(log: seq<Frame>, i: nat, f: Frame)
    requires i < |log| && log[i].Whole? && f.Whole?
    ensures Readable(log[i := f]) == if i < |Readable(log)| then Readable(log)[i := f] else Readable(log)
  {
    if log[0].Whole? {
      if i == 0 {
        assert log[i := f][1..] == log[1..];
      } else {
        assert log[i := f][1..] == log[1..][i - 1 := f];
        ReadableOverwrite(log[1..], i - 1, f);
      }
    }
  }

  lemma AppendIsExact(s: State, n: nat)
    requires Enabled(s, Append(n)) && Survives(s)
    ensures Survives(Step(s, Append(n))) <==> LosesNothing(s, Append(n))
  {
    var f := Whole(n, s.numbered[n], true);
    if Torn in s.log {
      TornHides(s.log, f);
    } else {
      ReadableIsPrefix(s.log);
      ReadableIsPrefix(s.log + [f]);
      ReplayedMore(s.log, f, Floor(s));
    }
    hide Readable, Replays, ReplayedIds, Floor, Held;
  }

  lemma ReplayedMore(log: seq<Frame>, f: Frame, floor: nat)
    requires Readable(log) == log && Readable(log + [f]) == log + [f] && f.Whole?
    ensures ReplayedIds(log + [f], floor) == ReplayedIds(log, floor) + if Replays(f, floor) then {f.id} else {}
  {
    forall g | g in log + [f] && Replays(g, floor) && g !in log ensures g == f {}
    if Replays(f, floor) { assert f in Readable(log + [f]); }
    assert forall g :: g in log ==> g in log + [f];
  }

  lemma CorruptIsExact(s: State, i: nat)
    requires Enabled(s, Corrupt(i)) && Survives(s)
    ensures Survives(Step(s, Corrupt(i))) <==> LosesNothing(s, Corrupt(i))
  {
    var f := s.log[i].(intact := false);
    var before, after := Readable(s.log), Readable(s.log[i := f]);
    ReadableIsPrefix(s.log);
    ReadableOverwrite(s.log, i, f);
    if i < |before| {
      forall id | id in ReplayedIds(s.log, Floor(s)) && id != s.log[i].id
        ensures id in ReplayedIds(s.log[i := f], Floor(s))
      {
        var g :| g in before && Replays(g, Floor(s)) && g.id == id;
        var j :| 0 <= j < |before| && before[j] == g;
        assert after[j] == g;
      }
      var id := s.log[i].id;
      if ReplayedElsewhere(s, i, id) {
        var j :| 0 <= j < |before| && j != i && Replays(before[j], Floor(s)) && before[j].id == id;
        assert after[j] == before[j];
      } else {
        assert id !in ReplayedIds(s.log[i := f], Floor(s)) by {
          forall g | g in after && Replays(g, Floor(s)) ensures g.id != id {
            var j :| 0 <= j < |after| && after[j] == g;
            assert j != i && before[j] == g;
          }
        }
      }
      if !Replays(s.log[i], Floor(s)) { ReplayedSame(s, i); }
    }
  }

  /** A frame that is not replayed anyway may go bad. */
  lemma ReplayedSame(s: State, i: nat)
    requires i < |Readable(s.log)| && i < |s.log| && s.log[i].Whole? && !Replays(s.log[i], Floor(s))
    ensures ReplayedIds(s.log, Floor(s)) <= ReplayedIds(s.log[i := s.log[i].(intact := false)], Floor(s))
  {
    var f := s.log[i].(intact := false);
    ReadableIsPrefix(s.log);
    ReadableOverwrite(s.log, i, f);
    var before, after := Readable(s.log), Readable(s.log[i := f]);
    forall g | g in before && Replays(g, Floor(s)) ensures g in after {
      var j :| 0 <= j < |before| && before[j] == g;
      assert after[j] == g;
    }
  }

  lemma SnapshotLosesNothing(s: State, snap: Snapshot)
    requires Invariant(s) && Enabled(s, SaveSnapshot(snap)) && Survives(s)
    ensures Survives(Step(s, SaveSnapshot(snap)))
  {
    var s' := Step(s, SaveSnapshot(snap));
    forall id | id in s.logged ensures id in Restorable(s') {
      if id !in Held(s) {
        var f :| f in Readable(s.log) && Replays(f, Floor(s)) && f.id == id;
        assert KnownEntry(s, f.number, f.id);
        if Replays(f, Floor(s')) { assert id in ReplayedIds(s'.log, Floor(s')); }
      }
    }
  }

  /** One step from a state that survives a crash leads to one that does if and only if the step finds what it
      needs. Commits, numbers, lost appends, snapshots, partial writes and boots never lose anything. */
  lemma StepIsExact(s: State, a: Action)
    requires Invariant(s) && Enabled(s, a) && Survives(s)
    ensures Survives(Step(s, a)) <==> LosesNothing(s, a)
  {
    match a
    case Append(n) => AppendIsExact(s, n);
    case Corrupt(i) => CorruptIsExact(s, i);
    case SaveSnapshot(snap) => SnapshotLosesNothing(s, snap);
    case Tear => ReadableAppend(s.log, Torn);
    case Rotate => assert Step(s, Rotate).log == [];
    case _ =>
  }

  /** A crash at any moment of a run brings back every commit whose entry had reached the log, if and only if
      every step of the run finds what it needs. */
  lemma RunIsExact(states: seq<State>, actions: seq<Action>)
    requires IsRun(states, actions)
    ensures (forall i :: 0 <= i < |states| ==> Survives(states[i])) <==>
            (forall i :: 0 <= i < |actions| ==> LosesNothing(states[i], actions[i]))
  {
    hide Survives, LosesNothing, Invariant;
    if forall i :: 0 <= i < |states| ==> Survives(states[i]) {
      forall i | 0 <= i < |actions| ensures LosesNothing(states[i], actions[i]) {
        EveryRun(states, actions, i);
        assert Survives(states[i]) && Survives(states[i + 1]);
        StepIsExact(states[i], actions[i]);
      }
    }
    if forall i :: 0 <= i < |actions| ==> LosesNothing(states[i], actions[i]) {
      forall i | 0 <= i < |states| ensures Survives(states[i]) { SafeStepsSurvive(states, actions, i); }
    }
  }

  lemma {:induction false} SafeStepsSurvive(states: seq<State>, actions: seq<Action>, i: nat)
    requires IsRun(states, actions) && i < |states|
    requires forall j :: 0 <= j < |actions| ==> LosesNothing(states[j], actions[j])
    ensures Survives(states[i])
  {
    if i > 0 {
      SafeStepsSurvive(states, actions, i - 1);
      EveryRun(states, actions, i - 1);
      StepIsExact(states[i - 1], actions[i - 1]);
    }
  }
}
