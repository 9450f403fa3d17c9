/** Clients, their subscriptions, and the reverse index from tables to subscribers. */
module Registry {
  import opened Sequences
  import opened Filter
  import opened PatchStream

  type ClientId = nat

  datatype Client = Client(subscriptions: map<string, SubscriptionFilter>, missedTicks: nat, rowCache: RowMap)

  type Clients = map<ClientId, Client>
  type ClientIndex = map<ClientId, seq<string>>
  type TableIndex = map<string, ClientIndex>

  // ---- The reverse index ------------------------------------------------------------------------

  /** The ids the index lists for a client under a table. */
  function Listed(index: TableIndex, table: string, c: ClientId): seq<string> {
    if table in index && c in index[table] then index[table][c] else []
  }

  function AddListing(index: TableIndex, table: string, c: ClientId, id: string): TableIndex {
    var clientMap := if table in index then index[table] else map[];
    index[table := clientMap[c := Listed(index, table, c) + [id]]]
  }

  /** Empty lists and empty tables are dropped. */
  function RemoveListing(index: TableIndex, table: string, c: ClientId, id: string): TableIndex {
    if table !in index then index
    else
      var ids := Without(Listed(index, table, c), id);
      var clientMap := if ids == [] then index[table] - {c} else index[table][c := ids];
      if clientMap == map[] then index - {table} else index[table := clientMap]
  }

  lemma ListedAfterAdd(index: TableIndex, table: string, c: ClientId, id: string, t: string, d: ClientId)
    ensures Listed(AddListing(index, table, c, id), t, d)
            == Listed(index, t, d) + if t == table && d == c then [id] else []
  {}

  lemma ListedAfterRemove(index: TableIndex, table: string, c: ClientId, id: string, t: string, d: ClientId)
    ensures Listed(RemoveListing(index, table, c, id), t, d)
            == if t == table && d == c then Without(Listed(index, t, d), id) else Listed(index, t, d)
  {
    if table in index {
      var ids := Without(Listed(index, table, c), id);
      var clientMap := if ids == [] then index[table] - {c} else index[table][c := ids];
      assert d != c ==> (d in clientMap <==> d in index[table]);
      assert c in clientMap <==> ids != [];
    }
  }

  // ---- Agreement between index and subscriptions ----------------------------------------------------

  ghost predicate Subscribed(clients: Clients, c: ClientId, id: string) {
    c in clients && id in clients[c].subscriptions
  }

  /** Every live subscription is listed under its table. */
  ghost predicate Covered(clients: Clients, index: TableIndex) {
    forall c, id :: Subscribed(clients, c, id) ==>
      id in Listed(index, clients[c].subscriptions[id].table, c)
  }

  /** Nothing else is listed, and nothing twice. */
  ghost predicate Tight(clients: Clients, index: TableIndex) {
    forall t, c ::
      NoRepeats(Listed(index, t, c))
      && forall id :: id in Listed(index, t, c) ==>
           Subscribed(clients, c, id) && clients[c].subscriptions[id].table == t
  }

  function Subscribe(clients: Clients, c: ClientId, id: string, f: SubscriptionFilter): Clients
    requires c in clients
  {
    clients[c := clients[c].(subscriptions := clients[c].subscriptions[id := f])]
  }

  function DropSubscription(clients: Clients, c: ClientId, id: string): Clients
    requires c in clients
  {
    clients[c := clients[c].(subscriptions := clients[c].subscriptions - {id})]
  }

  lemma SubscribeCovered(clients: Clients, index: TableIndex, c: ClientId, id: string, f: SubscriptionFilter)
    requires Covered(clients, index) && c in clients
    ensures Covered(Subscribe(clients, c, id, f), AddListing(index, f.table, c, id))
  {
    var clients' := Subscribe(clients, c, id, f);
    forall d, x | Subscribed(clients', d, x)
      ensures x in Listed(AddListing(index, f.table, c, id), clients'[d].subscriptions[x].table, d)
    {
      ListedAfterAdd(index, f.table, c, id, clients'[d].subscriptions[x].table, d);
      assert (d == c && x == id) || Subscribed(clients, d, x);
    }
  }

  /** Only the reuse of a live id leaves a stale or repeated entry. */
  lemma SubscribeTight(clients: Clients, index: TableIndex, c: ClientId, id: string, f: SubscriptionFilter)
    requires Tight(clients, index) && c in clients && id !in clients[c].subscriptions
    ensures Tight(Subscribe(clients, c, id, f), AddListing(index, f.table, c, id))
  {
    var clients' := Subscribe(clients, c, id, f);
    forall t, d
      ensures NoRepeats(Listed(AddListing(index, f.table, c, id), t, d))
      ensures forall x :: x in Listed(AddListing(index, f.table, c, id), t, d) ==>
                Subscribed(clients', d, x) && clients'[d].subscriptions[x].table == t
    {
      ListedAfterAdd(index, f.table, c, id, t, d);
      assert NoRepeats(Listed(index, t, d));
      assert forall x :: x in Listed(index, t, d) ==> Subscribed(clients, d, x);
      assert d == c ==> id !in Listed(index, t, d);
    }
  }

  lemma DropCovered(clients: Clients, index: TableIndex, c: ClientId, id: string, table: string)
    requires Covered(clients, index) && c in clients
    ensures Covered(DropSubscription(clients, c, id), RemoveListing(index, table, c, id))
  {
    var clients' := DropSubscription(clients, c, id);
    forall d, x | Subscribed(clients', d, x)
      ensures x in Listed(RemoveListing(index, table, c, id), clients'[d].subscriptions[x].table, d)
    {
      var t := clients'[d].subscriptions[x].table;
      assert Subscribed(clients, d, x);
      ListedAfterRemove(index, table, c, id, t, d);
      WithoutIs(Listed(index, t, d), id);
    }
  }

  lemma DropTight(clients: Clients, index: TableIndex, c: ClientId, id: string)
    requires Tight(clients, index) && Subscribed(clients, c, id)
    ensures Tight(DropSubscription(clients, c, id),
                  RemoveListing(index, clients[c].subscriptions[id].table, c, id))
  {
    var table := clients[c].subscriptions[id].table;
    var clients', index' := DropSubscription(clients, c, id), RemoveListing(index, table, c, id);
    forall t, d
      ensures NoRepeats(Listed(index', t, d))
      ensures forall x :: x in Listed(index', t, d) ==>
                Subscribed(clients', d, x) && clients'[d].subscriptions[x].table == t
    {
      ListedAfterRemove(index, table, c, id, t, d);
      WithoutIs(Listed(index, t, d), id);
      assert NoRepeats(Listed(index, t, d));
    }
  }

  // ---- Who must be reached ----------------------------------------------------------------------------

  /** The brute-force answer: scan every client and every subscription. */
  ghost predicate Target(clients: Clients, delta: RowDelta, c: ClientId, id: string) {
    Subscribed(clients, c, id) && Matches(clients[c].subscriptions[id], delta)
  }

  /** What the index walk looks at. */
  ghost predicate Walked(clients: Clients, index: TableIndex, delta: RowDelta, c: ClientId, id: string) {
    id in Listed(index, delta.table, c) && Target(clients, delta, c, id)
  }

  /** Walking the index reaches exactly the subscriptions that a scan of everything would: a stale or
      misplaced entry never matches. */
  lemma WalkIsScan(clients: Clients, index: TableIndex, delta: RowDelta, c: ClientId, id: string)
    requires Covered(clients, index)
    ensures Walked(clients, index, delta, c, id) <==> Target(clients, delta, c, id)
  {
    assert Target(clients, delta, c, id) ==> Subscribed(clients, c, id);
  }
}
