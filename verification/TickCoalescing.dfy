/** Tick coalescing as a race: publishers stage deltas at any moment while the flusher lists the pending
    rows, takes them out one by one, and delivers the batch. */
module TickCoalescing {
  import opened Wrappers
  import opened Json
  import opened Filter
  import opened PatchStream
  import opened Sequences

  datatype State = State(
    pending: map<Key, RowDelta>,
    collecting: bool,
    keys: seq<Key>,             // listed, not yet taken
    batch: seq<RowDelta>,       // taken, not yet delivered
    delivered: RowMap,          // the rows of a subscriber without a filter
    published: seq<RowDelta>)   // everything staged so far, in order

  datatype Action = Publish(delta: RowDelta) | ListKeys(listing: seq<Key>) | TakeOne | Deliver

  /** The listing need not be a snapshot of `pending`: rows staged meanwhile may be in it or not. */
  ghost predicate Enabled(s: State, a: Action) {
    match a
    case Publish(d) => FullRow(d)
    case ListKeys(listing) => !s.collecting && NoRepeats(listing)
    case TakeOne => s.collecting && s.keys != []
    case Deliver => s.collecting && s.keys == []
  }

  function Step(s: State, a: Action): State {
    match a
    case Publish(d) => s.(pending := s.pending[KeyOf(d) := d], published := s.published + [d])
    case ListKeys(listing) => s.(collecting := true, keys := listing)
    case TakeOne =>
      if s.keys == [] then s
      else
        var k, rest := s.keys[0], s.(keys := s.keys[1..]);
        if k in s.pending then rest.(batch := s.batch + [s.pending[k]], pending := s.pending - {k}) else rest
    case Deliver => s.(collecting := false, batch := [], delivered := ReplayDeltas(s.delivered, s.batch))
  }

  /** The row under `k` once the pending delta for it has been applied. */
  function RowUnder(rows: RowMap, pending: map<Key, RowDelta>, k: Key): Option<Value> {
    if k in pending && pending[k].operation == "delete" then None
    else if k in pending && pending[k].data.Some? then pending[k].data
    else if k in rows then Some(rows[k])
    else None
  }

  /** The rows once everything pending has been applied, in whatever order. */
  function Overlay(rows: RowMap, pending: map<Key, RowDelta>): RowMap {
    map k | k in rows.Keys + pending.Keys && RowUnder(rows, pending, k).Some? :: RowUnder(rows, pending, k).value
  }

  /** Nothing is lost: what has arrived, then the batch in flight, then what is pending, give the rows
      that all published deltas in order give. A row is in the batch at most once. */
  ghost predicate Invariant(s: State) {
    && (forall k :: k in s.pending ==> KeyOf(s.pending[k]) == k && FullRow(s.pending[k]))
    && Overlay(ReplayDeltas(s.delivered, s.batch), s.pending) == ReplayDeltas(map[], s.published)
    && (forall i, j :: 0 <= i < j < |s.batch| ==> KeyOf(s.batch[i]) != KeyOf(s.batch[j]))
    && (forall i :: 0 <= i < |s.batch| ==> KeyOf(s.batch[i]) !in s.keys)
    && NoRepeats(s.keys) && (!s.collecting ==> s.keys == [] && s.batch == [])
  }

  /** Staging a delta over the others acts like applying it after them if and only if it says everything about
      its row, or its row is not pending, or the pending delta would not have changed the row. */
  lemma StagingIsExact(rows: RowMap, pending: map<Key, RowDelta>, d: RowDelta)
    ensures Overlay(rows, pending[KeyOf(d) := d]) == ApplyDelta(Overlay(rows, pending), d) <==>
            FullRow(d) || KeyOf(d) !in pending || RowUnder(rows, pending, KeyOf(d)) == RowUnder(rows, map[], KeyOf(d))
  {
    var k := KeyOf(d);
    var staged, applied := Overlay(rows, pending[k := d]), ApplyDelta(Overlay(rows, pending), d);
    forall j: Key | j != k ensures (j in staged <==> j in applied) && (j in staged ==> staged[j] == applied[j]) {
      assert RowUnder(rows, pending[k := d], j) == RowUnder(rows, pending, j);
    }
    assert k in applied <==> if FullRow(d) then d.operation != "delete" else RowUnder(rows, pending, k).Some?;
    assert k in staged <==> RowUnder(rows, pending[k := d], k).Some?;
    if k in applied && k in staged && !FullRow(d) {
      assert applied[k] == RowUnder(rows, pending, k).value && staged[k] == rows[k];
    }
  }

  lemma OverlayPublish(rows: RowMap, pending: map<Key, RowDelta>, d: RowDelta)
    requires FullRow(d)
    ensures Overlay(rows, pending[KeyOf(d) := d]) == ApplyDelta(Overlay(rows, pending), d)
  {
    StagingIsExact(rows, pending, d);
  }

  lemma OverlayTake(rows: RowMap, pending: map<Key, RowDelta>, k: Key)
    requires k in pending && KeyOf(pending[k]) == k
    ensures Overlay(ApplyDelta(rows, pending[k]), pending - {k}) == Overlay(rows, pending)
  {}

  lemma ReplayOne(rows: RowMap, ds: seq<RowDelta>, d: RowDelta)
    ensures ReplayDeltas(rows, ds + [d]) == ApplyDelta(ReplayDeltas(rows, ds), d)
  {
    assert (ds + [d])[..|ds|] == ds;
  }

  lemma StepKeepsInvariant(s: State, a: Action)
    requires Invariant(s) && Enabled(s, a)
    ensures Invariant(Step(s, a))
  {
    match a
    case Publish(d) => PublishKeeps(s, d);
    case TakeOne => TakeKeeps(s);
    case ListKeys(_) =>
    case Deliver => assert ReplayDeltas(Step(s, a).delivered, []) == Step(s, a).delivered;
  }

  lemma PublishKeeps(s: State, d: RowDelta)
    requires Invariant(s) && FullRow(d)
    ensures Invariant(Step(s, Publish(d)))
  {
    OverlayPublish(ReplayDeltas(s.delivered, s.batch), s.pending, d);
    ReplayOne(map[], s.published, d);
    hide Overlay, ReplayDeltas, ApplyDelta;
  }

  lemma TakeKeeps(s: State)
    requires Invariant(s) && s.collecting && s.keys != []
    ensures Invariant(Step(s, TakeOne))
  {
    var k := s.keys[0];
    if k in s.pending {
      OverlayTake(ReplayDeltas(s.delivered, s.batch), s.pending, k);
      ReplayOne(s.delivered, s.batch, s.pending[k]);
    }
    hide Overlay, ReplayDeltas, ApplyDelta;
  }

  function Start(): State { State(map[], false, [], [], map[], []) }

  ghost predicate IsRun(states: seq<State>, actions: seq<Action>) {
    && |states| == |actions| + 1 && states[0] == Start()
    && forall i :: 0 <= i < |actions| ==> Enabled(states[i], actions[i]) && states[i + 1] == Step(states[i], actions[i])
  }

  /** In every interleaving, at every moment, the published rows are the delivered ones under the batch in
      flight under what is pending. */
  lemma {:induction false} NothingIsLost(states: seq<State>, actions: seq<Action>, i: nat)
    requires IsRun(states, actions) && i < |states|
    ensures var s := states[i];
            Invariant(s) && Overlay(ReplayDeltas(s.delivered, s.batch), s.pending) == ReplayDeltas(map[], s.published)
  {
    if i > 0 {
      NothingIsLost(states, actions, i - 1);
      StepKeepsInvariant(states[i - 1], actions[i - 1]);
    }
  }

  /** Whenever nothing is pending and no batch is in flight, the subscriber has exactly the rows that
      the published deltas, applied one by one in order, give. */
  lemma QuietMeansCaughtUp(states: seq<State>, actions: seq<Action>, i: nat)
    requires IsRun(states, actions) && i < |states|
    requires states[i].pending == map[] && states[i].batch == []
    ensures states[i].delivered == ReplayDeltas(map[], states[i].published)
  {
    NothingIsLost(states, actions, i);
    assert Overlay(states[i].delivered, map[]) == states[i].delivered;
  }

  // ---- The copy of a patched subscriber -----------------------------------------------------------------

  /** What the server caches for the subscriber, and what the subscriber has built from its frames. */
  datatype Client = Client(rowCache: RowMap, copy: RowMap)

  function Named(n: nat, id: string): seq<string> { seq(n, i => id) }

  /** A delivered batch goes out as full rows and patches against the cache. */
  function Fed(client: Client, batch: seq<RowDelta>, id: string, shorter: SizeTest): Client {
    Client(CacheAll(client.rowCache, batch),
           ReplayDiffs(client.copy, Diffs(client.rowCache, batch, Named(|batch|, id), shorter)))
  }

  /** The subscriber after the first `i` steps of a run. */
  ghost function ClientAt(states: seq<State>, actions: seq<Action>, i: nat, id: string, shorter: SizeTest): Client
    requires IsRun(states, actions) && i < |states|
  {
    if i == 0 then Client(map[], map[])
    else
      var before := ClientAt(states, actions, i - 1, id, shorter);
      if actions[i - 1].Deliver? then Fed(before, states[i - 1].batch, id, shorter) else before
  }

  /** No delivered update drops a field of the row cached for the subscriber. */
  ghost predicate KeepsAllFields(states: seq<State>, actions: seq<Action>, id: string, shorter: SizeTest)
    requires IsRun(states, actions)
  {
    forall i :: 0 <= i < |actions| && actions[i].Deliver? ==>
      StreamKeepsFields(ClientAt(states, actions, i, id, shorter).rowCache, states[i].batch)
  }

  /** In every interleaving the copy built from patched frames has the rows that the delivered deltas have. */
  lemma {:induction false} CopyIsDelivered(states: seq<State>, actions: seq<Action>, i: nat, id: string,
                                           shorter: SizeTest)
    requires IsRun(states, actions) && i < |states| && KeepsAllFields(states, actions, id, shorter)
    ensures var c := ClientAt(states, actions, i, id, shorter);
            Synced(c.rowCache, c.copy) && SameRows(c.copy, states[i].delivered)
  {
    if i > 0 {
      CopyIsDelivered(states, actions, i - 1, id, shorter);
      var before, s := ClientAt(states, actions, i - 1, id, shorter), states[i - 1];
      if actions[i - 1].Deliver? {
        PatchesSimulateDeltas(before.rowCache, before.copy, s.delivered, s.batch, Named(|s.batch|, id), shorter);
      }
      hide Synced, SameRows, Diffs, ReplayDiffs, ReplayDeltas, CacheAll, StreamKeepsFields;
    }
  }

  /** With nothing pending and nothing in flight, that copy has every published row. */
  lemma QuietCopyIsCaughtUp(states: seq<State>, actions: seq<Action>, i: nat, id: string, shorter: SizeTest)
    requires IsRun(states, actions) && i < |states| && KeepsAllFields(states, actions, id, shorter)
    requires states[i].pending == map[] && states[i].batch == []
    ensures SameRows(ClientAt(states, actions, i, id, shorter).copy, ReplayDeltas(map[], states[i].published))
  {
    CopyIsDelivered(states, actions, i, id, shorter);
    QuietMeansCaughtUp(states, actions, i);
  }
}
