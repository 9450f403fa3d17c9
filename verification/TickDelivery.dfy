/** What one tick delivers to one client: at most one diff for each delta, under the first subscription
    that matches, and the row cache that goes with it. */
module TickDelivery {
  import opened Wrappers
  import opened Filter
  import opened PatchStream
  import opened Registry

  datatype SendOutcome = Sent | Full | Closed

  const SLOW_CONSUMER_EVICT_AFTER: nat := 3

  /** The first listed id that exists and matches. */
  function FirstMatch(subs: map<string, SubscriptionFilter>, ids: seq<string>, delta: RowDelta): Option<string> {
    if ids == [] then None
    else if ids[0] in subs && Matches(subs[ids[0]], delta) then Some(ids[0])
    else FirstMatch(subs, ids[1..], delta)
  }

  lemma {:induction false} FirstMatchExists(subs: map<string, SubscriptionFilter>, ids: seq<string>, delta: RowDelta)
    ensures FirstMatch(subs, ids, delta).Some? <==>
            exists id :: id in ids && id in subs && Matches(subs[id], delta)
    ensures FirstMatch(subs, ids, delta).Some? ==>
              var id := FirstMatch(subs, ids, delta).value; id in ids && id in subs && Matches(subs[id], delta)
  {
    hide Matches;
    if ids != [] {
      FirstMatchExists(subs, ids[1..], delta);
      assert forall id :: id in ids <==> id == ids[0] || id in ids[1..];
    }
  }

  // ---- One delta ------------------------------------------------------------------------------------

  function StepClient(client: Client, ids: seq<string>, delta: RowDelta): Client {
    if FirstMatch(client.subscriptions, ids, delta).None? then client
    else client.(rowCache := CacheAfter(client.rowCache, delta))
  }

  function StepDiffs(client: Client, ids: seq<string>, delta: RowDelta, shorter: SizeTest): seq<Diff> {
    var id := FirstMatch(client.subscriptions, ids, delta);
    if id.None? then [] else [DiffOf(client.rowCache, delta, id.value, shorter)]
  }

  // ---- A whole batch ----------------------------------------------------------------------------------

  datatype Addressed = Addressed(delta: RowDelta, id: string)

  /** The deltas of the batch that reach the client, each with the id it is sent under. */
  function Reaching(client: Client, index: TableIndex, c: ClientId, ds: seq<RowDelta>): seq<Addressed> {
    if ds == [] then []
    else
      var d := ds[|ds| - 1];
      var id := FirstMatch(client.subscriptions, Listed(index, d.table, c), d);
      Reaching(client, index, c, ds[..|ds| - 1]) + if id.None? then [] else [Addressed(d, id.value)]
  }

  function Deltas(a: seq<Addressed>): (r: seq<RowDelta>)
    ensures |r| == |a|
  {
    if a == [] then [] else Deltas(a[..|a| - 1]) + [a[|a| - 1].delta]
  }

  function Ids(a: seq<Addressed>): (r: seq<string>)
    ensures |r| == |a|
  {
    if a == [] then [] else Ids(a[..|a| - 1]) + [a[|a| - 1].id]
  }

  function ClientDiffs(client: Client, index: TableIndex, c: ClientId, ds: seq<RowDelta>,
                       shorter: SizeTest): seq<Diff> {
    var a := Reaching(client, index, c, ds);
    Diffs(client.rowCache, Deltas(a), Ids(a), shorter)
  }

  function CachedClient(client: Client, index: TableIndex, c: ClientId, ds: seq<RowDelta>): Client {
    client.(rowCache := CacheAll(client.rowCache, Deltas(Reaching(client, index, c, ds))))
  }

  function CachedClients(clients: Clients, index: TableIndex, ds: seq<RowDelta>): Clients {
    map c | c in clients :: CachedClient(clients[c], index, c, ds)
  }

  /** A client gets a frame exactly if some delta reaches it, with one diff for each such delta. */
  ghost predicate FramesOf(clients: Clients, index: TableIndex, ds: seq<RowDelta>, shorter: SizeTest,
                           frames: map<ClientId, seq<Diff>>) {
    && (forall c :: c in frames ==> c in clients && frames[c] != [])
    && (forall c :: c in clients ==> GetFrame(frames, c) == ClientDiffs(clients[c], index, c, ds, shorter))
  }

  function GetFrame(frames: map<ClientId, seq<Diff>>, c: ClientId): seq<Diff> {
    if c in frames then frames[c] else []
  }

  lemma ClientStep(client: Client, index: TableIndex, c: ClientId, ds: seq<RowDelta>, d: RowDelta, shorter: SizeTest)
    ensures var ids, mid := Listed(index, d.table, c), CachedClient(client, index, c, ds);
            && CachedClient(client, index, c, ds + [d]) == StepClient(mid, ids, d)
            && ClientDiffs(client, index, c, ds + [d], shorter)
               == ClientDiffs(client, index, c, ds, shorter) + StepDiffs(mid, ids, d, shorter)
  {
    hide DiffOf, CacheAfter, Listed, FirstMatch;
    var ids := Listed(index, d.table, c);
    var a, a' := Reaching(client, index, c, ds), Reaching(client, index, c, ds + [d]);
    assert (ds + [d])[..|ds|] == ds;
    var id := FirstMatch(client.subscriptions, ids, d);
    if id.Some? {
      assert a' == a + [Addressed(d, id.value)] && a'[..|a|] == a;
      var dels, names := Deltas(a'), Ids(a');
      assert dels == Deltas(a) + [d] && names == Ids(a) + [id.value];
      assert dels[..|a|] == Deltas(a) && names[..|a|] == Ids(a);
    } else {
      assert a' == a;
    }
  }

  /** The client set after one more delta, and the frames with it. */
  lemma BatchStep(before: Clients, index: TableIndex, deltas: seq<RowDelta>, i: nat, mid: Clients, after: Clients,
                  frames: map<ClientId, seq<Diff>>, frames': map<ClientId, seq<Diff>>, shorter: SizeTest)
    requires i < |deltas|
    requires mid == CachedClients(before, index, deltas[..i])
    requires FramesOf(before, index, deltas[..i], shorter, frames)
    requires IsStep(mid, index, deltas[i], shorter, frames, after, frames')
    ensures after == CachedClients(before, index, deltas[..i + 1])
    ensures FramesOf(before, index, deltas[..i + 1], shorter, frames')
  {
    hide StepClient, StepDiffs, CachedClient, ClientDiffs, GetFrame;
    assert deltas[..i + 1] == deltas[..i] + [deltas[i]];
    forall c | c in before { ClientStep(before[c], index, c, deltas[..i], deltas[i], shorter); }
    assert after.Keys == before.Keys;
  }

  ghost predicate IsStep(clients: Clients, index: TableIndex, delta: RowDelta, shorter: SizeTest,
                         frames: map<ClientId, seq<Diff>>, after: Clients, frames': map<ClientId, seq<Diff>>) {
    && after.Keys == clients.Keys
    && (forall c :: c in frames' ==> c in clients && frames'[c] != [])
    && (forall c :: c in clients ==>
          after[c] == StepClient(clients[c], Listed(index, delta.table, c), delta)
          && GetFrame(frames', c) == GetFrame(frames, c)
             + StepDiffs(clients[c], Listed(index, delta.table, c), delta, shorter))
  }

  /** The walk of one delta, with the clients in `done` served. */
  ghost predicate StepSoFar(clients: Clients, clientMap: ClientIndex, delta: RowDelta, shorter: SizeTest,
                            frames: map<ClientId, seq<Diff>>, now: Clients, frames': map<ClientId, seq<Diff>>,
                            done: set<ClientId>) {
    && now.Keys == clients.Keys
    && (forall c :: c in frames' ==> c in clients && frames'[c] != [])
    && (forall c :: c in clients ==>
          if c in done && c in clientMap
          then now[c] == StepClient(clients[c], clientMap[c], delta)
               && GetFrame(frames', c) == GetFrame(frames, c) + StepDiffs(clients[c], clientMap[c], delta, shorter)
          else now[c] == clients[c] && GetFrame(frames', c) == GetFrame(frames, c))
  }

  lemma ServeOne(clients: Clients, clientMap: ClientIndex, delta: RowDelta, shorter: SizeTest,
                 frames: map<ClientId, seq<Diff>>, now: Clients, frames': map<ClientId, seq<Diff>>,
                 done: set<ClientId>, c: ClientId)
    requires StepSoFar(clients, clientMap, delta, shorter, frames, now, frames', done)
    requires c in clientMap && c !in done
    ensures c !in clients ==> StepSoFar(clients, clientMap, delta, shorter, frames, now, frames', done + {c})
    ensures c in clients ==>
              var diffs := StepDiffs(now[c], clientMap[c], delta, shorter);
              now[c] == clients[c]
              && StepSoFar(clients, clientMap, delta, shorter, frames,
                           now[c := StepClient(now[c], clientMap[c], delta)],
                           if diffs == [] then frames' else frames'[c := GetFrame(frames', c) + diffs], done + {c})
  {
    hide StepClient, StepDiffs, GetFrame;
    if c in clients {
      var diffs := StepDiffs(now[c], clientMap[c], delta, shorter);
      assert now[c] == clients[c];
      FramesAfter(frames', c, diffs);
    }
  }

  /** Appending to one client's frame leaves the others alone. */
  lemma FramesAfter(frames: map<ClientId, seq<Diff>>, c: ClientId, diffs: seq<Diff>)
    ensures var after := if diffs == [] then frames else frames[c := GetFrame(frames, c) + diffs];
            GetFrame(after, c) == GetFrame(frames, c) + diffs
            && forall e: ClientId :: e != c ==> GetFrame(after, e) == GetFrame(frames, e)
  {
  }

  lemma SoFarKeys(clients: Clients, clientMap: ClientIndex, delta: RowDelta, shorter: SizeTest,
                  frames: map<ClientId, seq<Diff>>, now: Clients, frames': map<ClientId, seq<Diff>>,
                  done: set<ClientId>)
    requires StepSoFar(clients, clientMap, delta, shorter, frames, now, frames', done)
    ensures now.Keys == clients.Keys
  {}

  lemma ServedAll(clients: Clients, index: TableIndex, delta: RowDelta, shorter: SizeTest,
                  frames: map<ClientId, seq<Diff>>, now: Clients, frames': map<ClientId, seq<Diff>>)
    requires delta.table in index
    requires StepSoFar(clients, index[delta.table], delta, shorter, frames, now, frames', index[delta.table].Keys)
    ensures IsStep(clients, index, delta, shorter, frames, now, frames')
  {}

  // ---- Sending ------------------------------------------------------------------------------------------

  /** A frame that arrives clears the count of missed ticks, a full buffer adds one. */
  function MissedAfter(missed: nat, outcome: SendOutcome): nat {
    match outcome case Sent => 0 case Full => missed + 1 case Closed => missed
  }

  predicate Evicted(client: Client, outcome: SendOutcome) {
    outcome.Closed? || (outcome.Full? && client.missedTicks + 1 >= SLOW_CONSUMER_EVICT_AFTER)
  }

  function AfterSends(clients: Clients, frames: map<ClientId, seq<Diff>>, net: ClientId -> SendOutcome): Clients {
    map c | c in clients && !(c in frames && Evicted(clients[c], net(c))) ::
      if c in frames then clients[c].(missedTicks := MissedAfter(clients[c].missedTicks, net(c))) else clients[c]
  }

  /** The sends to the clients in `done` have been tried; those in `gone` have to go. */
  ghost predicate SentSoFar(clients: Clients, now: Clients, net: ClientId -> SendOutcome, gone: seq<ClientId>,
                            done: set<ClientId>) {
    && now.Keys == clients.Keys
    && (forall c :: c in clients ==> now[c] == SentTo(clients[c], c in done, net(c)))
    && (forall c :: c in gone <==> c in done && c in clients && Evicted(clients[c], net(c)))
  }

  function SentTo(client: Client, tried: bool, outcome: SendOutcome): Client {
    if tried then client.(missedTicks := MissedAfter(client.missedTicks, outcome)) else client
  }

  lemma SendStep(clients: Clients, now: Clients, net: ClientId -> SendOutcome, gone: seq<ClientId>,
                 done: set<ClientId>, c: ClientId)
    requires SentSoFar(clients, now, net, gone, done) && c !in done && c in now
    ensures SentSoFar(clients, now[c := SentTo(now[c], true, net(c))], net,
                      if Evicted(now[c], net(c)) then gone + [c] else gone, done + {c})
  {
    hide Evicted, MissedAfter;
  }

  lemma SendsDone(clients: Clients, now: Clients, frames: map<ClientId, seq<Diff>>, net: ClientId -> SendOutcome,
                  gone: seq<ClientId>)
    requires SentSoFar(clients, now, net, gone, frames.Keys)
    ensures now - (set c | c in gone) == AfterSends(clients, frames, net)
  {
    hide Evicted, MissedAfter;
  }

  function AfterBatch(clients: Clients, index: TableIndex, ds: seq<RowDelta>, frames: map<ClientId, seq<Diff>>,
                      net: ClientId -> SendOutcome): Clients {
    AfterSends(CachedClients(clients, index, ds), frames, net)
  }

  /** The latest delta of each row. */
  function Staged(pending: map<Key, RowDelta>, ds: seq<RowDelta>): map<Key, RowDelta> {
    if ds == [] then pending else Staged(pending, ds[..|ds| - 1])[KeyOf(ds[|ds| - 1]) := ds[|ds| - 1]]
  }

  // ---- What the client makes of it ------------------------------------------------------------------------

  /** A delta of the batch reaches the client if and only if one of its subscriptions matches. */
  lemma DeltaReaches(clients: Clients, index: TableIndex, c: ClientId, d: RowDelta)
    requires Covered(clients, index) && c in clients
    ensures FirstMatch(clients[c].subscriptions, Listed(index, d.table, c), d).Some? <==>
            exists id :: Target(clients, d, c, id)
  {
    var first := FirstMatch(clients[c].subscriptions, Listed(index, d.table, c), d);
    FirstMatchExists(clients[c].subscriptions, Listed(index, d.table, c), d);
    if first.Some? { assert Target(clients, d, c, first.value); }
    if id :| Target(clients, d, c, id) { WalkIsScan(clients, index, d, c, id); }
  }

  /** A client that replays its frame holds, for every row the server has cached for it, the cached row,
      and sees the same rows as if it had applied the matching deltas themselves. */
  lemma FrameSimulatesBatch(client: Client, index: TableIndex, c: ClientId, ds: seq<RowDelta>, shorter: SizeTest,
                            copy: RowMap, rows: RowMap)
    requires Synced(client.rowCache, copy) && SameRows(copy, rows)
    requires StreamKeepsFields(client.rowCache, Deltas(Reaching(client, index, c, ds)))
    ensures var copy' := ReplayDiffs(copy, ClientDiffs(client, index, c, ds, shorter));
            && Synced(CachedClient(client, index, c, ds).rowCache, copy')
            && SameRows(copy', ReplayDeltas(rows, Deltas(Reaching(client, index, c, ds))))
  {
    var a := Reaching(client, index, c, ds);
    PatchesSimulateDeltas(client.rowCache, copy, rows, Deltas(a), Ids(a), shorter);
  }
}
