/** The subscription manager: who gets which frame for a row delta, immediately or once per tick. */
module Subscriptions {
  import opened Wrappers
  import opened Sequences
  import opened Strings
  import opened Filter
  import opened PatchStream
  import opened Registry
  import opened TickDelivery

  /** What each send attempt of one call comes back with; the first attempt is number 0. */
  type Network = nat -> SendOutcome

  type Pair = (ClientId, string)

  /** The ids of one client, in list order, that exist and match. */
  function MatchingIds(subs: map<string, SubscriptionFilter>, ids: seq<string>, delta: RowDelta): seq<string> {
    if ids == [] then []
    else (if ids[0] in subs && Matches(subs[ids[0]], delta) then [ids[0]] else []) + MatchingIds(subs, ids[1..], delta)
  }

  lemma {:induction false} MatchingIdsAre(subs: map<string, SubscriptionFilter>, ids: seq<string>, delta: RowDelta)
    ensures forall x :: x in MatchingIds(subs, ids, delta) <==> x in ids && x in subs && Matches(subs[x], delta)
    ensures NoRepeats(ids) ==> NoRepeats(MatchingIds(subs, ids, delta))
  {
    if ids != [] {
      MatchingIdsAre(subs, ids[1..], delta);
      var rest := MatchingIds(subs, ids[1..], delta);
      assert forall j :: 0 <= j < |rest| ==> rest[j] in ids[1..];
      assert NoRepeats(ids) ==> NoRepeats(ids[1..]) && forall i :: 1 <= i < |ids| ==> ids[0] != ids[i];
    }
  }

  lemma {:induction false} MatchingIdsConcat(subs: map<string, SubscriptionFilter>, a: seq<string>, id: string,
                                            delta: RowDelta)
    ensures MatchingIds(subs, a + [id], delta)
            == MatchingIds(subs, a, delta) + if id in subs && Matches(subs[id], delta) then [id] else []
  {
    if a == [] {
      assert [] + [id] == [id];
    } else {
      assert (a + [id])[1..] == a[1..] + [id];
      MatchingIdsConcat(subs, a[1..], id, delta);
    }
  }

  // ---- Grouping by subscription id --------------------------------------------------------------

  function InsertPair(x: Pair, s: seq<Pair>): seq<Pair> {
    if s == [] || StringLess(x.1, s[0].1) then [x] + s else [s[0]] + InsertPair(x, s[1..])
  }

  function SortPairs(s: seq<Pair>): seq<Pair> {
    if s == [] then [] else InsertPair(s[0], SortPairs(s[1..]))
  }

  ghost predicate SortedPairs(s: seq<Pair>) {
    forall i, j :: 0 <= i < j < |s| ==> StringLeq(s[i].1, s[j].1)
  }

  lemma {:induction false} InsertPairSorts(x: Pair, s: seq<Pair>)
    requires SortedPairs(s)
    ensures SortedPairs(InsertPair(x, s))
    ensures multiset(InsertPair(x, s)) == multiset(s) + multiset{x}
  {
    if s != [] {
      assert s == [s[0]] + s[1..];
      if StringLess(x.1, s[0].1) {
        StringLessTotal(x.1, s[0].1);
        forall j | 0 <= j < |s| ensures StringLeq(x.1, s[j].1) {
          if j > 0 { LessThenLeq(x.1, s[0].1, s[j].1); }
        }
      } else {
        var rest := InsertPair(x, s[1..]);
        InsertPairSorts(x, s[1..]);
        forall j | 0 <= j < |rest| ensures StringLeq(s[0].1, rest[j].1) {
          assert rest[j] in multiset(rest);
          assert rest[j] == x || rest[j] in s[1..];
        }
      }
    }
  }

  lemma {:induction false} SortPairsSorts(s: seq<Pair>)
    ensures SortedPairs(SortPairs(s)) && multiset(SortPairs(s)) == multiset(s)
  {
    if s != [] {
      assert s == [s[0]] + s[1..];
      SortPairsSorts(s[1..]);
      InsertPairSorts(s[0], SortPairs(s[1..]));
    }
  }

  ghost predicate NoPairTwice(s: seq<Pair>) {
    forall i, j :: 0 <= i < j < |s| ==> s[i] != s[j]
  }

  lemma {:induction false} NoPairTwiceMeans(s: seq<Pair>)
    ensures NoPairTwice(s) <==> forall x :: multiset(s)[x] <= 1
  {
    if s != [] {
      assert s == [s[0]] + s[1..];
      NoPairTwiceMeans(s[1..]);
      if NoPairTwice(s) {
        assert s[0] !in s[1..];
        forall x ensures multiset(s)[x] <= 1 { assert multiset(s)[x] == multiset{s[0]}[x] + multiset(s[1..])[x]; }
      }
      if forall x :: multiset(s)[x] <= 1 {
        forall x ensures multiset(s[1..])[x] <= 1 { assert multiset(s[1..])[x] <= multiset(s)[x]; }
        assert multiset(s)[s[0]] == 1 + multiset(s[1..])[s[0]];
      }
    }
  }

  function Firsts<T>(s: seq<(ClientId, T)>): (r: seq<ClientId>)
    ensures |r| == |s| && forall i :: 0 <= i < |r| ==> r[i] == s[i].0
  {
    seq(|s|, i requires 0 <= i < |s| => s[i].0)
  }

  /** The clients whose send attempt finds a full buffer. */
  ghost function FullSet(targets: seq<ClientId>, net: Network): set<ClientId> {
    set i | 0 <= i < |targets| && net(i).Full? :: targets[i]
  }

  /** The same for the delta at `i` of a list. */
  ghost function FullAt(targets: seq<ClientId>, net: (nat, nat) -> SendOutcome, i: nat): set<ClientId> {
    set j | 0 <= j < |targets| && net(i, j).Full? :: targets[j]
  }

  /** The first `n` deltas of a list, one after the other: each reaches exactly its targets among the clients
      that are left, and takes the clients with a full buffer away. */
  ghost predicate Walks(deltas: seq<RowDelta>, n: nat, twoFrame: bool, net: (nat, nat) -> SendOutcome,
                        routed: seq<seq<(ClientId, seq<string>)>>, legacy: seq<seq<Pair>>, states: seq<Clients>) {
    && n <= |deltas| && |states| == n + 1
    && (if twoFrame then |routed| == n && legacy == [] else |legacy| == n && routed == [])
    && (forall i :: 0 <= i < |routed| ==>
          ReachesRouted(states[i], deltas[i], routed[i])
          && states[i + 1] == states[i] - FullAt(Firsts(routed[i]), net, i))
    && (forall i :: 0 <= i < |legacy| ==>
          ReachesPairs(states[i], deltas[i], legacy[i])
          && states[i + 1] == states[i] - FullAt(Firsts(legacy[i]), net, i))
  }

  class SubscriptionManager {
    const twoFrame: bool
    const shorter: SizeTest
    var clients: Clients
    var tableIndex: TableIndex
    var nextId: ClientId
    var pending: map<Key, RowDelta>
    var tickEnabled: bool

    ghost predicate Valid()
      reads this
    {
      && Covered(clients, tableIndex)
      && (forall c :: c in clients ==> c < nextId)
      && (forall k :: k in pending ==> KeyOf(pending[k]) == k)
    }

    constructor (twoFrame: bool, shorter: SizeTest)
      ensures Valid() && clients == map[] && tableIndex == map[] && pending == map[] && !tickEnabled
      ensures this.twoFrame == twoFrame && this.shorter == shorter
    {
      this.twoFrame, this.shorter := twoFrame, shorter;
      clients, tableIndex, pending := map[], map[], map[];
      nextId, tickEnabled := 1, false;
    }

    method RegisterClient() returns (id: ClientId)
      requires Valid()
      modifies this`clients, this`nextId
      ensures Valid() && id !in old(clients) && clients == old(clients)[id := Client(map[], 0, map[])]
      ensures Tight(old(clients), tableIndex) ==> Tight(clients, tableIndex)
    {
      id := nextId;
      nextId := nextId + 1;
      clients := clients[id := Client(map[], 0, map[])];
      forall c, x | Subscribed(clients, c, x) ensures x in Listed(tableIndex, clients[c].subscriptions[x].table, c) {
        assert Subscribed(old(clients), c, x);
      }
      assert forall c, x :: Subscribed(old(clients), c, x) ==> Subscribed(clients, c, x);
    }

    /** Registers a parsed query. A query that did not parse and an unknown client change nothing.
        Reusing the id of a live subscription replaces its filter. */
    method Subscribe(c: ClientId, id: string, parsed: Option<SubscriptionFilter>) returns (ok: bool)
      requires Valid()
      modifies this`clients, this`tableIndex
      ensures Valid() && (ok <==> parsed.Some? && c in old(clients))
      ensures clients == if ok then Registry.Subscribe(old(clients), c, id, parsed.value) else old(clients)
      ensures !ok ==> tableIndex == old(tableIndex)
      ensures Tight(old(clients), old(tableIndex)) && !Subscribed(old(clients), c, id) ==> Tight(clients, tableIndex)
    {
      if parsed.None? { return false; }
      var filter := parsed.value;
      if c !in clients { return false; }
      SubscribeCovered(clients, tableIndex, c, id, filter);
      if Tight(clients, tableIndex) && !Subscribed(clients, c, id) {
        SubscribeTight(clients, tableIndex, c, id, filter);
      }
      clients := Registry.Subscribe(clients, c, id, filter);
      tableIndex := AddListing(tableIndex, filter.table, c, id);
      ok := true;
    }

    method Unsubscribe(c: ClientId, id: string) returns (r: Result<bool, ()>)
      requires Valid()
      modifies this`clients, this`tableIndex
      ensures Valid()
      ensures r == if c !in old(clients) then Err(()) else Ok(Subscribed(old(clients), c, id))
      ensures clients == if Subscribed(old(clients), c, id) then DropSubscription(old(clients), c, id) else old(clients)
      ensures Tight(old(clients), old(tableIndex)) ==> Tight(clients, tableIndex)
    {
      if c !in clients { return Err(()); }
      if id !in clients[c].subscriptions { return Ok(false); }
      var table := clients[c].subscriptions[id].table;
      DropCovered(clients, tableIndex, c, id, table);
      if Tight(clients, tableIndex) { DropTight(clients, tableIndex, c, id); }
      clients := DropSubscription(clients, c, id);
      tableIndex := RemoveListing(tableIndex, table, c, id);
      r := Ok(true);
    }

    method UnregisterClient(c: ClientId)
      requires Valid()
      modifies this`clients, this`tableIndex
      ensures Valid() && clients == old(clients) - {c}
      ensures Tight(old(clients), old(tableIndex)) ==> Tight(clients, tableIndex)
    {
      if c !in clients { return; }
      hide Listed, Tight, Covered;
      ghost var before := clients;
      var subs := clients[c].subscriptions;
      clients := clients - {c};
      RemoveListings(c, subs);
      UnregisterKeeps(before, old(tableIndex), tableIndex, c);
    }

    method RemoveListings(c: ClientId, subs: map<string, SubscriptionFilter>)
      modifies this`tableIndex
      ensures OnlyRemoved(old(tableIndex), tableIndex, subs, subs.Keys, c)
    {
      var todo := subs.Keys;
      OnlyRemovedNothing(tableIndex, subs, c);
      assert subs.Keys - todo == {};
      hide OnlyRemoved, RemoveListing;
      while todo != {}
        invariant todo <= subs.Keys
        invariant OnlyRemoved(old(tableIndex), tableIndex, subs, subs.Keys - todo, c)
        decreases todo
      {
        var id :| id in todo;
        ghost var done := subs.Keys - todo;
        RemoveOne(old(tableIndex), tableIndex, subs, done, c, id);
        tableIndex := RemoveListing(tableIndex, subs[id].table, c, id);
        todo := todo - {id};
        assert subs.Keys - todo == done + {id};
      }
      assert subs.Keys - todo == subs.Keys;
    }

    /** Clients whose buffer was full lose everything. */
    method UnregisterAll(gone: seq<ClientId>)
      requires Valid()
      modifies this`clients, this`tableIndex
      ensures Valid() && clients == old(clients) - (set c | c in gone)
      ensures Tight(old(clients), old(tableIndex)) ==> Tight(clients, tableIndex)
    {
      for i := 0 to |gone|
        modifies this`clients, this`tableIndex
        invariant Valid() && clients == old(clients) - (set c | c in gone[..i])
        invariant Tight(old(clients), old(tableIndex)) ==> Tight(clients, tableIndex)
      {
        UnregisterClient(gone[i]);
        assert gone[..i + 1] == gone[..i] + [gone[i]];
      }
      assert gone[..|gone|] == gone;
    }

    // ---- Immediate delivery -------------------------------------------------------------------

    method CollectIds(subs: map<string, SubscriptionFilter>, ids: seq<string>, delta: RowDelta)
      returns (r: seq<string>)
      ensures r == MatchingIds(subs, ids, delta)
    {
      r := [];
      for i := 0 to |ids|
        invariant r == MatchingIds(subs, ids[..i], delta)
      {
        assert ids[..i + 1] == ids[..i] + [ids[i]];
        MatchingIdsConcat(subs, ids[..i], ids[i], delta);
        if ids[i] in subs && Matches(subs[ids[i]], delta) { r := r + [ids[i]]; }
      }
      assert ids[..|ids|] == ids;
    }

    /** Two-frame mode: one routed frame for each client, naming its matching ids. */
    method PublishRouted(delta: RowDelta, net: Network) returns (attempts: seq<(ClientId, seq<string>)>)
      requires Valid()
      modifies this`clients, this`tableIndex
      ensures Valid()
      ensures forall i, j :: 0 <= i < j < |attempts| ==> attempts[i].0 != attempts[j].0
      ensures forall i :: 0 <= i < |attempts| ==> attempts[i].1 != []
      ensures ReachesRouted(old(clients), delta, attempts)
      ensures Tight(old(clients), old(tableIndex)) ==>
                Tight(clients, tableIndex) && forall i :: 0 <= i < |attempts| ==> NoRepeats(attempts[i].1)
      ensures clients == old(clients) - FullSet(Firsts(attempts), net)
    {
      hide Covered, Tight, ReachesRouted;
      attempts := WalkClients(delta);
      WalkReaches(clients, tableIndex, delta, attempts);
      var gone := CollectFull(Firsts(attempts), net);
      UnregisterAll(gone);
    }

    /** The clients whose attempt found a full buffer. */
    method CollectFull(targets: seq<ClientId>, net: Network) returns (gone: seq<ClientId>)
      ensures (set c | c in gone) == FullSet(targets, net)
    {
      gone := [];
      for i := 0 to |targets|
        invariant forall c :: c in gone <==> exists j :: 0 <= j < i && net(j).Full? && targets[j] == c
      {
        if net(i).Full? { gone := gone + [targets[i]]; }
      }
    }

    /** The walk over the clients the index lists for the table. */
    method WalkClients(delta: RowDelta) returns (found: seq<(ClientId, seq<string>)>)
      requires Valid()
      ensures IsWalk(clients, tableIndex, delta, found)
    {
      found := [];
      if delta.table !in tableIndex { return; }
      var clientMap := tableIndex[delta.table];
      var todo := clientMap.Keys;
      while todo != {}
        invariant todo <= clientMap.Keys
        invariant WalkSoFar(clients, clientMap, delta, found, clientMap.Keys - todo)
        decreases todo
      {
        hide MatchingIds, Matches, WalkSoFar;
        var c :| c in todo;
        ghost var done := clientMap.Keys - todo;
        todo := todo - {c};
        assert clientMap.Keys - todo == done + {c};
        if c in clients {
          var ids := CollectIds(clients[c].subscriptions, clientMap[c], delta);
          WalkStep(clients, clientMap, delta, found, done, c);
          if ids != [] { found := found + [(c, ids)]; }
        } else {
          WalkStep(clients, clientMap, delta, found, done, c);
        }
      }
      assert clientMap.Keys - todo == clientMap.Keys;
    }

    /** Legacy mode: one frame for every matching subscription, each distinct id encoded once. */
    method PublishLegacy(delta: RowDelta, net: Network) returns (attempts: seq<Pair>, encoded: seq<string>)
      requires Valid()
      modifies this`clients, this`tableIndex
      ensures Valid()
      ensures ReachesPairs(old(clients), delta, attempts)
      ensures NoRepeats(encoded) && forall id :: id in encoded <==> exists c :: (c, id) in attempts
      ensures Tight(old(clients), old(tableIndex)) ==> Tight(clients, tableIndex) && NoPairTwice(attempts)
      ensures clients == old(clients) - FullSet(Firsts(attempts), net)
    {
      hide Covered, Tight, ReachesPairs;
      var found := WalkClients(delta);
      var matching := Flatten(found);
      attempts := SortPairs(matching);
      SortPairsSorts(matching);
      LegacyReach(clients, tableIndex, delta, found, matching, attempts);
      encoded := EncodeRuns(attempts);
      var gone := CollectFull(Firsts(attempts), net);
      UnregisterAll(gone);
    }

    method Flatten(found: seq<(ClientId, seq<string>)>) returns (r: seq<Pair>)
      ensures r == FlatPairs(found)
    {
      r := [];
      for i := 0 to |found|
        invariant r == FlatPairs(found[..i])
      {
        assert found[..i + 1][..i] == found[..i];
        r := r + PairsOf(found[i].0, found[i].1);
      }
      assert found[..|found|] == found;
    }

    /** One call for a list of deltas, in the mode of the manager. */
    method PublishNow(deltas: seq<RowDelta>, net: (nat, nat) -> SendOutcome)
      returns (routed: seq<seq<(ClientId, seq<string>)>>, legacy: seq<seq<Pair>>, ghost states: seq<Clients>)
      requires Valid()
      modifies this`clients, this`tableIndex
      ensures Valid() && (Tight(old(clients), old(tableIndex)) ==> Tight(clients, tableIndex))
      ensures Walks(deltas, |deltas|, twoFrame, net, routed, legacy, states)
      ensures states[0] == old(clients) && states[|deltas|] == clients
    {
      hide Covered, Tight, ReachesRouted, ReachesPairs;
      routed, legacy, states := [], [], [clients];
      for i := 0 to |deltas|
        invariant Valid() && (Tight(old(clients), old(tableIndex)) ==> Tight(clients, tableIndex))
        invariant Walks(deltas, i, twoFrame, net, routed, legacy, states)
        invariant states[0] == old(clients) && states[i] == clients
      {
        if twoFrame {
          var attempts := PublishRouted(deltas[i], (j: nat) => net(i, j));
          assert FullSet(Firsts(attempts), (j: nat) => net(i, j)) == FullAt(Firsts(attempts), net, i);
          hide FullSet, FullAt, Firsts;
          routed := routed + [attempts];
        } else {
          var attempts, _ := PublishLegacy(deltas[i], (j: nat) => net(i, j));
          assert FullSet(Firsts(attempts), (j: nat) => net(i, j)) == FullAt(Firsts(attempts), net, i);
          hide FullSet, FullAt, Firsts;
          legacy := legacy + [attempts];
        }
        states := states + [clients];
      }
    }

    // ---- Delivery once per tick -----------------------------------------------------------------

    /** In tick mode the deltas are staged, the latest for each row winning; otherwise they go out now.
        Without clients nothing is kept. */
    method PublishDeltas(deltas: seq<RowDelta>, net: (nat, nat) -> SendOutcome)
      returns (routed: seq<seq<(ClientId, seq<string>)>>, legacy: seq<seq<Pair>>, ghost states: seq<Clients>)
      requires Valid()
      modifies this`clients, this`tableIndex, this`pending
      ensures Valid()
      ensures old(clients) == map[] || deltas == [] ==> clients == old(clients) && pending == old(pending)
      ensures tickEnabled && old(clients) != map[] ==>
                clients == old(clients) && tableIndex == old(tableIndex) && pending == Staged(old(pending), deltas)
      ensures !tickEnabled && old(clients) != map[] && deltas != [] ==>
                pending == old(pending)
                && Walks(deltas, |deltas|, twoFrame, net, routed, legacy, states)
                && states[0] == old(clients) && states[|deltas|] == clients
    {
      routed, legacy, states := [], [], [clients];
      if clients == map[] || deltas == [] { return; }
      if tickEnabled {
        for i := 0 to |deltas|
          modifies this`pending
          invariant pending == Staged(old(pending), deltas[..i])
          invariant forall k :: k in pending ==> KeyOf(pending[k]) == k
        {
          assert deltas[..i + 1][..i] == deltas[..i];
          pending := pending[KeyOf(deltas[i]) := deltas[i]];
        }
        assert deltas[..|deltas|] == deltas;
        return;
      }
      routed, legacy, states := PublishNow(deltas, net);
    }

    /** One tick: lists the pending rows, takes each out, and delivers them as one batch. */
    method FlushTick(net: ClientId -> SendOutcome)
      returns (batch: seq<RowDelta>, frames: map<ClientId, seq<Diff>>)
      requires Valid()
      modifies this`clients, this`tableIndex, this`pending
      ensures Valid() && pending == map[]
      ensures forall k :: k in old(pending) ==> old(pending)[k] in batch
      ensures forall i :: 0 <= i < |batch| ==>
              KeyOf(batch[i]) in old(pending) && old(pending)[KeyOf(batch[i])] == batch[i]
      ensures forall i, j :: 0 <= i < j < |batch| ==> KeyOf(batch[i]) != KeyOf(batch[j])
      ensures FramesOf(old(clients), old(tableIndex), batch, shorter, frames)
      ensures clients == AfterBatch(old(clients), old(tableIndex), batch, frames, net)
    {
      batch := [];
      var keys := pending.Keys;
      while keys != {}
        modifies this`pending
        invariant keys == pending.Keys <= old(pending).Keys
        invariant forall k :: k in pending ==> pending[k] == old(pending)[k]
        invariant forall k :: k in old(pending) && k !in keys ==> old(pending)[k] in batch
        invariant forall i :: 0 <= i < |batch| ==>
                    KeyOf(batch[i]) in old(pending) && KeyOf(batch[i]) !in keys
                        && old(pending)[KeyOf(batch[i])] == batch[i]
        invariant forall i, j :: 0 <= i < j < |batch| ==> KeyOf(batch[i]) != KeyOf(batch[j])
        decreases keys
      {
        var k :| k in keys;
        keys := keys - {k};
        if k in pending {
          batch := batch + [pending[k]];
          pending := pending - {k};
        }
      }
      frames := PublishBatch(batch, net);
    }

    /** Computes what every client gets for the batch, then sends each client one frame. A client that is
        gone, or whose buffer is full for the third time in a row, is unregistered. */
    method PublishBatch(deltas: seq<RowDelta>, net: ClientId -> SendOutcome) returns (frames: map<ClientId, seq<Diff>>)
      requires Valid()
      modifies this`clients, this`tableIndex
      ensures Valid()
      ensures FramesOf(old(clients), old(tableIndex), deltas, shorter, frames)
      ensures clients == AfterBatch(old(clients), old(tableIndex), deltas, frames, net)
    {
      frames := map[];
      ghost var before := clients;
      for i := 0 to |deltas|
        modifies this`clients
        invariant Valid()
        invariant clients == CachedClients(before, tableIndex, deltas[..i])
        invariant FramesOf(before, tableIndex, deltas[..i], shorter, frames)
      {
        hide Covered, CachedClients, FramesOf;
        ghost var mid, sofar := clients, frames;
        frames := BatchDelta(deltas[i], frames);
        BatchStep(before, tableIndex, deltas, i, mid, clients, sofar, frames, shorter);
      }
      assert deltas[..|deltas|] == deltas;
      SendBatches(frames, net);
    }

    /** One delta of the batch: every listed client with a matching subscription gets one diff. */
    method BatchDelta(delta: RowDelta, frames: map<ClientId, seq<Diff>>) returns (frames': map<ClientId, seq<Diff>>)
      requires Valid()
      requires forall c :: c in frames ==> c in clients && frames[c] != []
      modifies this`clients
      ensures Valid()
      ensures IsStep(old(clients), tableIndex, delta, shorter, frames, clients, frames')
    {
      frames' := frames;
      if delta.table !in tableIndex { return; }
      frames' := ServeAll(delta, tableIndex[delta.table], frames);
      ServedAll(old(clients), tableIndex, delta, shorter, frames, clients, frames');
      StepKeepsSubscriptions(old(clients), tableIndex, delta, shorter, frames, clients, frames');
    }

    method ServeAll(delta: RowDelta, clientMap: ClientIndex, frames: map<ClientId, seq<Diff>>)
      returns (frames': map<ClientId, seq<Diff>>)
      requires forall c :: c in frames ==> c in clients && frames[c] != []
      modifies this`clients
      ensures StepSoFar(old(clients), clientMap, delta, shorter, frames, clients, frames', clientMap.Keys)
    {
      frames' := frames;
      var todo := clientMap.Keys;
      while todo != {}
        invariant todo <= clientMap.Keys
        invariant StepSoFar(old(clients), clientMap, delta, shorter, frames, clients, frames', clientMap.Keys - todo)
        decreases todo
      {
        hide StepSoFar, StepClient, StepDiffs;
        var c :| c in todo;
        ghost var done := clientMap.Keys - todo;
        todo := todo - {c};
        assert clientMap.Keys - todo == done + {c};
        ServeOne(old(clients), clientMap, delta, shorter, frames, clients, frames', done, c);
        assert c in clients <==> c in old(clients) by {
          SoFarKeys(old(clients), clientMap, delta, shorter, frames, clients, frames', done);
        }
        if c in clients {
          var client, diffs := DeliverTo(clients[c], clientMap[c], delta);
          if diffs != [] { frames' := frames'[c := GetFrame(frames', c) + diffs]; }
          clients := clients[c := client];
        }
      }
      assert clientMap.Keys - todo == clientMap.Keys;
    }

    /** The first matching subscription decides: the diff is computed against the cached row, then the
        cache takes the new row. */
    method DeliverTo(client: Client, ids: seq<string>, delta: RowDelta) returns (client': Client, diffs: seq<Diff>)
      ensures client' == StepClient(client, ids, delta) && diffs == StepDiffs(client, ids, delta, shorter)
    {
      client', diffs := client, [];
      for i := 0 to |ids|
        invariant client' == client && diffs == []
        invariant FirstMatch(client.subscriptions, ids, delta) == FirstMatch(client.subscriptions, ids[i..], delta)
      {
        if ids[i] !in client.subscriptions { continue; }
        if Matches(client.subscriptions[ids[i]], delta) {
          var key := KeyOf(delta);
          var operation, data := delta.operation, delta.data;
          if delta.operation == "update" && delta.data.Some? && key in client.rowCache {
            var patch := ComputePatch(client.rowCache[key], delta.data.value);
            if patch.Some? && shorter(patch.value, delta.data.value) { operation, data := "patch", patch; }
          }
          var cache := client.rowCache;
          if operation == "delete" {
            cache := cache - {key};
          } else if delta.data.Some? {
            cache := cache[key := delta.data.value];
          }
          return client.(rowCache := cache), [Diff(ids[i], delta.table, delta.rowKey, operation, data)];
        }
      }
    }

    /** Sends every client its frame and unregisters those that have to go. */
    method SendBatches(frames: map<ClientId, seq<Diff>>, net: ClientId -> SendOutcome)
      requires Valid() && frames.Keys <= clients.Keys
      modifies this`clients, this`tableIndex
      ensures Valid() && clients == AfterSends(old(clients), frames, net)
    {
      var gone := TrySends(frames, net);
      SendsDone(old(clients), clients, frames, net, gone);
      SameSubscriptions(old(clients), clients, tableIndex);
      hide Covered, SentSoFar, AfterSends;
      UnregisterAll(gone);
    }

    method TrySends(frames: map<ClientId, seq<Diff>>, net: ClientId -> SendOutcome) returns (gone: seq<ClientId>)
      requires frames.Keys <= clients.Keys
      modifies this`clients
      ensures SentSoFar(old(clients), clients, net, gone, frames.Keys)
    {
      gone := [];
      var todo := frames.Keys;
      while todo != {}
        invariant todo <= frames.Keys && SentSoFar(old(clients), clients, net, gone, frames.Keys - todo)
        decreases todo
      {
        var c :| c in todo;
        ghost var done := frames.Keys - todo;
        todo := todo - {c};
        assert frames.Keys - todo == done + {c};
        SendStep(old(clients), clients, net, gone, done, c);
        hide SentSoFar;
        var client, evict := TrySend(clients[c], net(c));
        clients := clients[c := client];
        if evict { gone := gone + [c]; }
      }
      assert frames.Keys - todo == frames.Keys;
    }

    method TrySend(client: Client, outcome: SendOutcome) returns (client': Client, evict: bool)
      ensures client' == SentTo(client, true, outcome) && evict == Evicted(client, outcome)
    {
      client', evict := client, false;
      match outcome {
        case Sent => client' := client.(missedTicks := 0);
        case Closed => evict := true;
        case Full =>
          client' := client.(missedTicks := client.missedTicks + 1);
          evict := client'.missedTicks >= SLOW_CONSUMER_EVICT_AFTER;
      }
    }

    /** Walks the runs of equal ids of the sorted list and encodes one frame per run. */
    method EncodeRuns(sorted: seq<Pair>) returns (encoded: seq<string>)
      requires SortedPairs(sorted)
      ensures NoRepeats(encoded) && forall id :: id in encoded <==> exists c :: (c, id) in sorted
    {
      encoded := [];
      var i := 0;
      while i < |sorted|
        invariant i <= |sorted|
        invariant forall k :: 0 <= k < |encoded| ==> exists j :: 0 <= j < i && sorted[j].1 == encoded[k]
        invariant forall j :: 0 <= j < i ==> sorted[j].1 in encoded
        invariant NoRepeats(encoded)
        invariant i < |sorted| ==> sorted[i].1 !in encoded
      {
        var id := sorted[i].1;
        var runEnd := i + 1;
        while runEnd < |sorted| && sorted[runEnd].1 == id
          invariant i < runEnd <= |sorted|
          invariant forall j :: i <= j < runEnd ==> sorted[j].1 == id
        {
          runEnd := runEnd + 1;
        }
        if runEnd < |sorted| { RunEndsForGood(sorted, i, runEnd); }
        encoded := encoded + [id];
        i := runEnd;
      }
      forall id | id in encoded ensures exists c :: (c, id) in sorted {
        var j :| 0 <= j < |sorted| && sorted[j].1 == id;
        assert (sorted[j].0, id) == sorted[j];
      }
    }
  }

  /** Of client `c` the subscriptions in `done` are no longer listed under their tables; nothing else
      has changed. */
  ghost predicate OnlyRemoved(old_: TableIndex, new_: TableIndex, subs: map<string, SubscriptionFilter>,
                              done: set<string>, c: ClientId) {
    && (forall t, d: ClientId :: d != c ==> Listed(new_, t, d) == Listed(old_, t, d))
    && (forall t :: ListRemoved(Listed(old_, t, c), Listed(new_, t, c), subs, done, t))
  }

  ghost predicate ListRemoved(old_: seq<string>, new_: seq<string>, subs: map<string, SubscriptionFilter>,
                              done: set<string>, t: string) {
    && (forall x :: x in new_ ==> x in old_ && !(x in done && x in subs && subs[x].table == t))
    && (NoRepeats(old_) ==> NoRepeats(new_))
  }

  lemma OnlyRemovedNothing(index: TableIndex, subs: map<string, SubscriptionFilter>, c: ClientId)
    ensures OnlyRemoved(index, index, subs, {}, c)
  {}

  lemma RemoveOne(old_: TableIndex, new_: TableIndex, subs: map<string, SubscriptionFilter>,
                  done: set<string>, c: ClientId, id: string)
    requires OnlyRemoved(old_, new_, subs, done, c) && id in subs
    ensures OnlyRemoved(old_, RemoveListing(new_, subs[id].table, c, id), subs, done + {id}, c)
  {
    var table := subs[id].table;
    var next := RemoveListing(new_, table, c, id);
    forall t, d: ClientId
      ensures Listed(next, t, d) == if t == table && d == c then Without(Listed(new_, t, d), id) else Listed(new_, t, d)
    {
      ListedAfterRemove(new_, table, c, id, t, d);
    }
    forall t ensures ListRemoved(Listed(old_, t, c), Listed(next, t, c), subs, done + {id}, t) {
      assert ListRemoved(Listed(old_, t, c), Listed(new_, t, c), subs, done, t);
      if t == table { WithoutIs(Listed(new_, t, c), id); }
    }
  }

  lemma SameSubscriptions(before: Clients, after: Clients, index: TableIndex)
    requires Covered(before, index) && after.Keys == before.Keys
    requires forall c :: c in before ==> after[c].subscriptions == before[c].subscriptions
    ensures Covered(after, index)
  {
    forall c: ClientId, id | Subscribed(after, c, id) ensures id in Listed(index, after[c].subscriptions[id].table, c) {
      assert Subscribed(before, c, id);
    }
  }

  lemma StepKeepsSubscriptions(before: Clients, index: TableIndex, delta: RowDelta, shorter: SizeTest,
                               frames: map<ClientId, seq<Diff>>, after: Clients, frames': map<ClientId, seq<Diff>>)
    requires Covered(before, index) && IsStep(before, index, delta, shorter, frames, after, frames')
    ensures Covered(after, index)
  {
    SameSubscriptions(before, after, index);
  }

  lemma UnregisterKeeps(before: Clients, old_: TableIndex, new_: TableIndex, c: ClientId)
    requires Covered(before, old_) && c in before
    requires OnlyRemoved(old_, new_, before[c].subscriptions, before[c].subscriptions.Keys, c)
    ensures Covered(before - {c}, new_)
    ensures Tight(before, old_) ==> Tight(before - {c}, new_)
  {
    var after := before - {c};
    forall d: ClientId, x | Subscribed(after, d, x) ensures x in Listed(new_, after[d].subscriptions[x].table, d) {
      assert Subscribed(before, d, x);
    }
    if Tight(before, old_) {
      forall t, d: ClientId
        ensures NoRepeats(Listed(new_, t, d))
        ensures forall x :: x in Listed(new_, t, d) ==> Subscribed(after, d, x) && after[d].subscriptions[x].table == t
      {
        assert NoRepeats(Listed(old_, t, d));
        assert forall x :: x in Listed(old_, t, d) ==>
            Subscribed(before, d, x) && before[d].subscriptions[x].table == t;
        if d == c {
          assert ListRemoved(Listed(old_, t, c), Listed(new_, t, c), before[c].subscriptions,
              before[c].subscriptions.Keys, t);
        }
      }
    }
  }

  predicate HasMatch(client: Client, ids: seq<string>, delta: RowDelta) {
    MatchingIds(client.subscriptions, ids, delta) != []
  }

  ghost predicate WalkSoFar(clients: Clients, clientMap: ClientIndex, delta: RowDelta,
                            found: seq<(ClientId, seq<string>)>, done: set<ClientId>) {
    && (forall i :: 0 <= i < |found| ==>
          found[i].0 in clients && found[i].0 in clientMap && found[i].0 in done && found[i].1 != []
          && found[i].1 == MatchingIds(clients[found[i].0].subscriptions, clientMap[found[i].0], delta))
    && (forall i, j :: 0 <= i < j < |found| ==> found[i].0 != found[j].0)
    && (forall c :: c in done && c in clientMap && c in clients && HasMatch(clients[c], clientMap[c], delta) ==>
          exists i :: 0 <= i < |found| && found[i].0 == c)
  }

  lemma WalkStep(clients: Clients, clientMap: ClientIndex, delta: RowDelta,
                 found: seq<(ClientId, seq<string>)>, done: set<ClientId>, c: ClientId)
    requires WalkSoFar(clients, clientMap, delta, found, done) && c in clientMap && c !in done
    ensures c in clients && HasMatch(clients[c], clientMap[c], delta) ==>
              WalkSoFar(clients, clientMap, delta,
                        found + [(c, MatchingIds(clients[c].subscriptions, clientMap[c], delta))], done + {c})
    ensures !(c in clients && HasMatch(clients[c], clientMap[c], delta)) ==>
              WalkSoFar(clients, clientMap, delta, found, done + {c})
  {
    if c in clients && HasMatch(clients[c], clientMap[c], delta) {
      var next := found + [(c, MatchingIds(clients[c].subscriptions, clientMap[c], delta))];
      hide MatchingIds;
      assert next[|found|].0 == c && forall i :: 0 <= i < |found| ==> next[i] == found[i];
    }
  }

  /** One entry for every listed client with a match, carrying its matching ids. */
  ghost predicate IsWalk(clients: Clients, index: TableIndex, delta: RowDelta, found: seq<(ClientId, seq<string>)>) {
    && (forall i :: 0 <= i < |found| ==>
          found[i].0 in clients && found[i].1 != []
          && found[i].1 == MatchingIds(clients[found[i].0].subscriptions, Listed(index, delta.table, found[i].0),
             delta))
    && (forall i, j :: 0 <= i < j < |found| ==> found[i].0 != found[j].0)
    && (forall c :: c in clients && HasMatch(clients[c], Listed(index, delta.table, c), delta) ==>
          exists i :: 0 <= i < |found| && found[i].0 == c)
  }

  /** The frames reach exactly the subscriptions a scan of every client would reach. */
  ghost predicate ReachesRouted(clients: Clients, delta: RowDelta, attempts: seq<(ClientId, seq<string>)>) {
    forall c: ClientId, id ::
      Target(clients, delta, c, id) <==> exists i :: 0 <= i < |attempts| && attempts[i].0 == c && id in attempts[i].1
  }

  /** With no full buffer nobody is dropped, so every delta reaches exactly its targets among all clients. */
  lemma {:induction false} RoomForAll(deltas: seq<RowDelta>, n: nat, twoFrame: bool, net: (nat, nat) -> SendOutcome,
                                     routed: seq<seq<(ClientId, seq<string>)>>, legacy: seq<seq<Pair>>,
                                     states: seq<Clients>, i: nat)
    requires Walks(deltas, n, twoFrame, net, routed, legacy, states) && i <= n
    requires forall k, j :: !net(k, j).Full?
    ensures states[i] == states[0]
  {
    if i > 0 {
      RoomForAll(deltas, n, twoFrame, net, routed, legacy, states, i - 1);
      hide ReachesRouted, ReachesPairs, Firsts;
      if twoFrame {
        assert FullAt(Firsts(routed[i - 1]), net, i - 1) == {};
      } else {
        assert FullAt(Firsts(legacy[i - 1]), net, i - 1) == {};
      }
    }
  }

  ghost predicate ReachesPairs(clients: Clients, delta: RowDelta, attempts: seq<Pair>) {
    forall c: ClientId, id :: Target(clients, delta, c, id) <==> (c, id) in attempts
  }

  lemma WalkReaches(clients: Clients, index: TableIndex, delta: RowDelta, found: seq<(ClientId, seq<string>)>)
    requires Covered(clients, index) && IsWalk(clients, index, delta, found)
    ensures ReachesRouted(clients, delta, found)
    ensures Tight(clients, index) ==> DistinctWalk(found)
  {
    forall c: ClientId, id
      ensures Target(clients, delta, c, id) <==>
              exists i :: 0 <= i < |found| && found[i].0 == c && id in found[i].1
    {
      WalkIsScan(clients, index, delta, c, id);
      RoutedReach(clients, index, delta, found, c, id);
    }
    if Tight(clients, index) { WalkTight(clients, index, delta, found); }
  }

  lemma RoutedReach(clients: Clients, index: TableIndex, delta: RowDelta, found: seq<(ClientId, seq<string>)>,
                    c: ClientId, id: string)
    requires IsWalk(clients, index, delta, found)
    ensures Walked(clients, index, delta, c, id) <==>
            exists i :: 0 <= i < |found| && found[i].0 == c && id in found[i].1
  {
    if c in clients {
      var ids := Listed(index, delta.table, c);
      MatchingIdsAre(clients[c].subscriptions, ids, delta);
      hide MatchingIds;
      if Walked(clients, index, delta, c, id) {
        assert id in MatchingIds(clients[c].subscriptions, ids, delta);
        var i :| 0 <= i < |found| && found[i].0 == c;
        assert id in found[i].1;
      }
    }
  }

  function PairsOf(c: ClientId, ids: seq<string>): (r: seq<Pair>)
    ensures |r| == |ids| && forall i :: 0 <= i < |r| ==> r[i] == (c, ids[i])
  {
    seq(|ids|, i requires 0 <= i < |ids| => (c, ids[i]))
  }

  function FlatPairs(found: seq<(ClientId, seq<string>)>): seq<Pair> {
    if found == [] then []
    else FlatPairs(found[..|found| - 1]) + PairsOf(found[|found| - 1].0, found[|found| - 1].1)
  }

  ghost predicate DistinctWalk(found: seq<(ClientId, seq<string>)>) {
    && (forall i, j :: 0 <= i < j < |found| ==> found[i].0 != found[j].0)
    && (forall i :: 0 <= i < |found| ==> NoRepeats(found[i].1))
  }

  lemma {:induction false} FlatPairsAre(found: seq<(ClientId, seq<string>)>)
    ensures forall x :: x in FlatPairs(found) <==>
              exists i :: 0 <= i < |found| && found[i].0 == x.0 && x.1 in found[i].1
  {
    if found != [] {
      var init, last := found[..|found| - 1], found[|found| - 1];
      FlatPairsAre(init);
      var b := PairsOf(last.0, last.1);
      forall x ensures x in FlatPairs(found) <==>
        exists i :: 0 <= i < |found| && found[i].0 == x.0 && x.1 in found[i].1
      {
        if x in b { assert found[|init|] == last; }
        if i :| 0 <= i < |found| && found[i].0 == x.0 && x.1 in found[i].1 {
          if i == |init| {
            var n :| 0 <= n < |last.1| && last.1[n] == x.1;
            assert b[n] == x;
          } else {
            assert init[i] == found[i];
          }
        }
      }
    }
  }

  lemma {:induction false} FlatPairsDistinct(found: seq<(ClientId, seq<string>)>)
    requires DistinctWalk(found)
    ensures NoPairTwice(FlatPairs(found))
  {
    if found != [] {
      var init, last := found[..|found| - 1], found[|found| - 1];
      assert forall i :: 0 <= i < |init| ==> init[i] == found[i];
      FlatPairsDistinct(init);
      FlatPairsAre(init);
      var a, b := FlatPairs(init), PairsOf(last.0, last.1);
      assert NoRepeats(last.1) && FlatPairs(found) == a + b;
      forall i, j | 0 <= i < |a| && 0 <= j < |b| ensures a[i] != b[j] {
        assert a[i] in a;
      }
    }
  }

  lemma LegacyReach(clients: Clients, index: TableIndex, delta: RowDelta, found: seq<(ClientId, seq<string>)>,
                    matching: seq<Pair>, attempts: seq<Pair>)
    requires Covered(clients, index) && IsWalk(clients, index, delta, found)
    requires matching == FlatPairs(found) && multiset(attempts) == multiset(matching)
    ensures ReachesPairs(clients, delta, attempts)
    ensures Tight(clients, index) ==> NoPairTwice(attempts)
  {
    FlatPairsAre(found);
    WalkReaches(clients, index, delta, found);
    hide IsWalk, FlatPairs, Covered, Target;
    forall c: ClientId, id ensures Target(clients, delta, c, id) <==> (c, id) in attempts {
      assert (c, id) in attempts <==> (c, id) in multiset(attempts);
      assert (c, id) in matching <==> (c, id) in multiset(matching);
    }
    if Tight(clients, index) {
      FlatPairsDistinct(found);
      NoPairTwiceMeans(matching);
      NoPairTwiceMeans(attempts);
    }
  }

  lemma WalkTight(clients: Clients, index: TableIndex, delta: RowDelta, found: seq<(ClientId, seq<string>)>)
    requires IsWalk(clients, index, delta, found) && Tight(clients, index)
    ensures DistinctWalk(found)
  {
    forall i | 0 <= i < |found| ensures NoRepeats(found[i].1) {
      assert NoRepeats(Listed(index, delta.table, found[i].0));
      MatchingIdsAre(clients[found[i].0].subscriptions, Listed(index, delta.table, found[i].0), delta);
    }
  }

  /** In a sorted list an id does not come back after its run. */
  lemma RunEndsForGood(sorted: seq<Pair>, i: nat, runEnd: nat)
    requires SortedPairs(sorted) && i < runEnd < |sorted|
    requires sorted[i].1 == sorted[runEnd - 1].1 != sorted[runEnd].1
    ensures forall j :: 0 <= j < runEnd ==> sorted[j].1 != sorted[runEnd].1
  {
    StringLessTotal(sorted[runEnd - 1].1, sorted[runEnd].1);
    assert StringLeq(sorted[runEnd - 1].1, sorted[runEnd].1);
    forall j | 0 <= j < runEnd ensures sorted[j].1 != sorted[runEnd].1 {
      if j < runEnd - 1 { assert StringLeq(sorted[j].1, sorted[runEnd - 1].1); }
    }
  }
}
