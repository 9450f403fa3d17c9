/** The tenant registry: two caches over the table of tenant definitions, and the deletion of a tenant. */
module Tenants {
  import opened Wrappers
  import opened Json
  import opened Sequences
  import opened Text
  import opened TenantNames
  import opened TenantRate

  const TENANTS_TABLE := "__tenants"

  type U64 = n: nat | n < 0x1_0000_0000_0000_0000
  type U32 = n: nat | n < 0x1_0000_0000

  /** A limit of 0 stands for no limit. */
  datatype TenantInfo = TenantInfo(
    id: string, name: string, apiKey: string, maxRows: U64, maxCallsPerSec: U32, createdAt: U64)

  type Rows = map<string, Value>

  // ---- Definitions as rows ------------------------------------------------------------------------------

  /** The row of a tenant as the store keeps it, with its own key injected. */
  function Stored(info: TenantInfo): Value {
    Obj(map["id" := Str(info.id), "name" := Str(info.name), "api_key" := Str(info.apiKey),
            "max_rows" := Num(Int(info.maxRows)), "max_calls_per_sec" := Num(Int(info.maxCallsPerSec)),
            "created_at" := Num(Int(info.createdAt)), "row_key" := Str(info.id)])
  }

  function TextField(fields: map<string, Value>, f: string): Option<string> {
    if f in fields && fields[f].Str? then Some(fields[f].s) else None
  }

  /** A missing number is 0, one out of range makes the row unreadable. */
  function NumberField(fields: map<string, Value>, f: string, bound: nat): (r: Option<nat>)
    requires bound > 0
    ensures r.Some? ==> r.value < bound
  {
    if f !in fields then Some(0)
    else
      match fields[f]
      case Num(Int(i)) => if 0 <= i < bound then Some(i) else None
      case _ => None
  }

  function Read(row: Value): Option<TenantInfo> {
    match row
    case Obj(fields) =>
      var id, name, key := TextField(fields, "id"), TextField(fields, "name"), TextField(fields, "api_key");
      var maxRows := NumberField(fields, "max_rows", 0x1_0000_0000_0000_0000);
      var maxCalls := NumberField(fields, "max_calls_per_sec", 0x1_0000_0000);
      var created := NumberField(fields, "created_at", 0x1_0000_0000_0000_0000);
      if id.Some? && name.Some? && key.Some? && maxRows.Some? && maxCalls.Some? && created.Some?
      then Some(TenantInfo(id.value, name.value, key.value, maxRows.value, maxCalls.value, created.value))
      else None
    case _ => None
  }

  lemma StoredReads(info: TenantInfo)
    ensures Read(Stored(info)) == Some(info)
  {
    var fields := Stored(info).fields;
    assert TextField(fields, "id") == Some(info.id) && TextField(fields, "name") == Some(info.name);
    assert TextField(fields, "api_key") == Some(info.apiKey);
    assert NumberField(fields, "max_rows", 0x1_0000_0000_0000_0000) == Some(info.maxRows);
    assert NumberField(fields, "max_calls_per_sec", 0x1_0000_0000) == Some(info.maxCallsPerSec);
  }

  // ---- What the caches hold --------------------------------------------------------------------------------

  datatype Registry = Registry(tables: map<string, Rows>, keyIndex: map<string, string>,
                               tenants: map<string, TenantInfo>)

  function Definitions(tables: map<string, Rows>): Rows {
    if TENANTS_TABLE in tables then tables[TENANTS_TABLE] else map[]
  }

  /** The readable rows. */
  function TenantsOf(defs: Rows): map<string, TenantInfo> {
    map k | k in defs && Read(defs[k]).Some? :: Read(defs[k]).value
  }

  /** Tenants are filed under their own id and no two share an API key. */
  ghost predicate WellKeyed(infos: map<string, TenantInfo>) {
    && (forall k :: k in infos ==> infos[k].id == k)
    && (forall k, l :: k in infos && l in infos && infos[k].apiKey == infos[l].apiKey ==> k == l)
  }

  /** The key index leads from every tenant's key to that tenant and nowhere else. */
  ghost predicate Indexes(infos: map<string, TenantInfo>, keyIndex: map<string, string>) {
    && (forall k :: k in infos ==> infos[k].apiKey in keyIndex && keyIndex[infos[k].apiKey] == k)
    && (forall key :: key in keyIndex ==> keyIndex[key] in infos && infos[keyIndex[key]].apiKey == key)
  }

  /** There is only one such index. */
  lemma IndexIsUnique(infos: map<string, TenantInfo>, a: map<string, string>, b: map<string, string>)
    requires Indexes(infos, a) && Indexes(infos, b)
    ensures a == b && forall k, l :: k in infos && l in infos && infos[k].apiKey == infos[l].apiKey ==> k == l
  {
  }

  ghost predicate MirrorsInfos(infos: map<string, TenantInfo>, tenants: map<string, TenantInfo>,
                                keyIndex: map<string, string>) {
    tenants == infos && (forall k :: k in infos ==> infos[k].id == k) && Indexes(infos, keyIndex)
  }

  /** Both caches are what a rehydration would rebuild from the table. */
  ghost predicate Mirrors(r: Registry) {
    MirrorsInfos(TenantsOf(Definitions(r.tables)), r.tenants, r.keyIndex)
  }

  ghost predicate DistinctNames(r: Registry) {
    forall i, j :: i in r.tenants && j in r.tenants && i != j ==> r.tenants[i].name != r.tenants[j].name
  }

  // ---- Creating and deleting ---------------------------------------------------------------------------------

  datatype TenantError = EmptyName | NameHasColon | NameTaken | UnknownTenant

  function CheckName(tenants: map<string, TenantInfo>, name: string): Option<TenantError> {
    if name == [] then Some(EmptyName)
    else if !ColonFree(name) then Some(NameHasColon)
    else if exists i :: i in tenants && tenants[i].name == name then Some(NameTaken)
    else None
  }

  function Created(r: Registry, info: TenantInfo): Registry {
    Registry(
      r.tables[TENANTS_TABLE := Definitions(r.tables)[info.id := Stored(info)]],
      r.keyIndex[info.apiKey := info.id],
      r.tenants[info.id := info])
  }

  function Purged(tables: map<string, Rows>, id: string): map<string, Rows> {
    map t | t in tables ::
      if BelongsToTenant(t, id) then map[] else if t == TENANTS_TABLE then tables[t] - {id} else tables[t]
  }

  function Deleted(r: Registry, id: string): Registry
    requires id in r.tenants
  {
    Registry(Purged(r.tables, id), r.keyIndex - {r.tenants[id].apiKey}, r.tenants - {id})
  }

  /** The new id and key are not in use by anybody else. */
  ghost predicate Unused(infos: map<string, TenantInfo>, info: TenantInfo) {
    && (forall i :: i in infos && i != info.id ==> infos[i].apiKey != info.apiKey)
    && (info.id in infos ==> infos[info.id].apiKey == info.apiKey)
  }

  lemma TenantsAfterWrite(defs: Rows, info: TenantInfo)
    ensures TenantsOf(defs[info.id := Stored(info)]) == TenantsOf(defs)[info.id := info]
  {
    StoredReads(info);
    hide Read, Stored;
  }

  /** Creating keeps both caches exact if and only if the generated id and key collide with nothing. */
  lemma CreateMirrors(r: Registry, info: TenantInfo)
    requires Mirrors(r)
    ensures Mirrors(Created(r, info)) <==> Unused(r.tenants, info)
  {
    TenantsAfterWrite(Definitions(r.tables), info);
    assert Definitions(Created(r, info).tables) == Definitions(r.tables)[info.id := Stored(info)];
    hide TenantsOf, Definitions, Stored;
    CacheWrite(r.tenants, r.keyIndex, info);
  }

  lemma CacheWrite(infos: map<string, TenantInfo>, keyIndex: map<string, string>, info: TenantInfo)
    requires MirrorsInfos(infos, infos, keyIndex)
    ensures MirrorsInfos(infos[info.id := info], infos[info.id := info], keyIndex[info.apiKey := info.id])
            <==> Unused(infos, info)
  {
    var after, index := infos[info.id := info], keyIndex[info.apiKey := info.id];
    if i :| i in infos && i != info.id && infos[i].apiKey == info.apiKey {
      assert after[i].apiKey in index ==> index[after[i].apiKey] != i;
    } else if info.id in infos && infos[info.id].apiKey != info.apiKey {
      var stale := infos[info.id].apiKey;
      assert stale in index && after[index[stale]].apiKey != stale;
    }
  }

  /** After an id collision the overwritten tenant's key still opens the new tenant. */
  lemma CollisionKeepsOldKey(r: Registry, info: TenantInfo)
    requires Mirrors(r) && info.id in r.tenants && r.tenants[info.id].apiKey != info.apiKey
    ensures var oldKey := r.tenants[info.id].apiKey;
            oldKey in Created(r, info).keyIndex && Created(r, info).keyIndex[oldKey] == info.id
  {
    hide TenantsOf, Definitions, Stored;
  }

  lemma PurgedDefinitions(tables: map<string, Rows>, id: string)
    ensures Definitions(Purged(tables, id)) == Definitions(tables) - {id}
  {
    assert TENANTS_TABLE[0] == '_';
  }

  lemma DeleteMirrors(r: Registry, id: string)
    requires Mirrors(r) && id in r.tenants
    ensures Mirrors(Deleted(r, id))
  {
    PurgedDefinitions(r.tables, id);
    var defs := Definitions(r.tables);
    assert TenantsOf(defs - {id}) == TenantsOf(defs) - {id} by { hide Read; }
    hide Purged, Definitions, TenantsOf;
    var after := r.tenants - {id};
  }

  /** Deleting a tenant empties its tables and drops its definition; no other tenant and no other table loses a row. */
  lemma DeleteIsolates(r: Registry, id: string, other: string, logical: string)
    requires id in r.tenants && ColonFree(id) && ColonFree(other)
    ensures var t, after := PhysicalTable(other, logical), Deleted(r, id).tables;
            t in after <==> t in r.tables
    ensures var t, after := PhysicalTable(other, logical), Deleted(r, id).tables;
            t in r.tables ==> after[t] == if other == id then map[] else r.tables[t]
    ensures forall t :: t in r.tables && !StartsWith(t, TENANT_PREFIX) && t != TENANTS_TABLE ==>
              Deleted(r, id).tables[t] == r.tables[t]
    ensures Definitions(Deleted(r, id).tables) == Definitions(r.tables) - {id}
  {
    PurgedDefinitions(r.tables, id);
    BelongsToOne(other, logical, id);
    assert PhysicalTable(other, logical)[0] == 't' && TENANTS_TABLE[0] == '_';
  }

  // ---- Runs -----------------------------------------------------------------------------------------------------

  datatype Op = Create(info: TenantInfo) | Delete(id: string)

  function Apply(r: Registry, op: Op): Registry {
    match op
    case Create(info) => if CheckName(r.tenants, info.name).Some? then r else Created(r, info)
    case Delete(id) => if id in r.tenants then Deleted(r, id) else r
  }

  function Run(r: Registry, ops: seq<Op>): Registry
    decreases |ops|
  {
    if ops == [] then r else Run(Apply(r, ops[0]), ops[1..])
  }

  ghost predicate FreshRun(r: Registry, ops: seq<Op>)
    decreases |ops|
  {
    ops != [] ==> (ops[0].Create? ==> Unused(r.tenants, ops[0].info)) && FreshRun(Apply(r, ops[0]), ops[1..])
  }

  lemma CreateKeepsNames(r: Registry, info: TenantInfo)
    requires DistinctNames(r) && CheckName(r.tenants, info.name).None?
    ensures DistinctNames(Created(r, info))
  {
  }

  /** After any run with fresh ids and keys the caches mirror the table and tenant names are distinct. */
  lemma {:induction false} RunMirrors(r: Registry, ops: seq<Op>)
    requires Mirrors(r) && DistinctNames(r) && FreshRun(r, ops)
    ensures Mirrors(Run(r, ops)) && DistinctNames(Run(r, ops))
    decreases |ops|
  {
    if ops != [] {
      match ops[0] {
        case Create(info) =>
          CreateMirrors(r, info);
          if CheckName(r.tenants, info.name).None? { CreateKeepsNames(r, info); }
        case Delete(id) =>
          if id in r.tenants { DeleteMirrors(r, id); }
      }
      hide Mirrors, Unused, Created, Deleted, CheckName;
      RunMirrors(Apply(r, ops[0]), ops[1..]);
    }
  }

  // ---- Keys -------------------------------------------------------------------------------------------------------

  /** The part of a token before its first colon; the rest names a role. */
  function KeyPart(token: string): string {
    var i := Find(token, ":");
    if i.Some? then token[..i.value] else token
  }

  function ResolveKey(r: Registry, token: string): Option<string> {
    if KeyPart(token) in r.keyIndex then Some(r.keyIndex[KeyPart(token)]) else None
  }

  lemma KeyPartOf(key: string, role: string)
    requires ColonFree(key)
    ensures KeyPart(key) == key && KeyPart(key + ":" + role) == key
  {
    FindColon(key, role);
    assert (key + ":" + role)[..|key|] == key;
    forall k: nat | k < |key| ensures !At(key, k, ":") { assert key[k..k + 1][0] == key[k]; }
  }

  /** A token opens a tenant exactly when the part before the colon is that tenant's key. */
  lemma TokensResolve(r: Registry, token: string, id: string)
    requires Mirrors(r)
    ensures ResolveKey(r, token) == Some(id) <==> id in r.tenants && r.tenants[id].apiKey == KeyPart(token)
  {
    hide Read, Definitions, KeyPart, TenantsOf;
  }

  /** A tenant's own key works with and without a role, and no longer after the tenant is deleted. */
  lemma KeyOpensUntilDeleted(r: Registry, id: string, role: string)
    requires Mirrors(r) && id in r.tenants && ColonFree(r.tenants[id].apiKey)
    ensures var key := r.tenants[id].apiKey;
            ResolveKey(r, key) == ResolveKey(r, key + ":" + role) == Some(id)
            && ResolveKey(Deleted(r, id), key) == ResolveKey(Deleted(r, id), key + ":" + role) == None
  {
    var key := r.tenants[id].apiKey;
    KeyPartOf(key, role);
    TokensResolve(r, key, id);
    TokensResolve(r, key + ":" + role, id);
    hide Mirrors, KeyPart, Purged;
  }

  // ---- Rehydration --------------------------------------------------------------------------------------------------

  /** Every cache entry comes from a row and every row has left its entries. */
  ghost predicate Scanned(infos: map<string, TenantInfo>, tenants: map<string, TenantInfo>,
                           keyIndex: map<string, string>) {
    && (forall i :: i in tenants ==> tenants[i].id == i && tenants[i] in infos.Values)
    && (forall k :: k in infos ==> infos[k].id in tenants && infos[k].apiKey in keyIndex)
  }

  /** What a scan of the rows leaves in the caches, in whatever order it visits them. */
  ghost predicate Rebuilt(infos: map<string, TenantInfo>, tenants: map<string, TenantInfo>,
                           keyIndex: map<string, string>) {
    Scanned(infos, tenants, keyIndex) && (WellKeyed(infos) ==> MirrorsInfos(infos, tenants, keyIndex))
  }

  lemma ScannedStep(infos: map<string, TenantInfo>, k: string, info: TenantInfo,
                    tenants: map<string, TenantInfo>, keyIndex: map<string, string>)
    requires Scanned(infos, tenants, keyIndex) && k !in infos
    ensures Scanned(infos[k := info], tenants[info.id := info], keyIndex[info.apiKey := info.id])
  {
    var after := infos[k := info];
    assert after[k] == info;
    forall i | i in tenants ensures tenants[i] in after.Values {
      var l :| l in infos && infos[l] == tenants[i];
      assert after[l] == tenants[i];
    }
  }

  lemma WellKeyedBefore(infos: map<string, TenantInfo>, k: string, info: TenantInfo)
    requires WellKeyed(infos[k := info]) && k !in infos
    ensures WellKeyed(infos) && info.id == k && Unused(infos, info)
  {
    var after := infos[k := info];
    assert after[k] == info && forall l :: l in infos ==> after[l] == infos[l];
  }

  lemma RebuiltStep(infos: map<string, TenantInfo>, k: string, info: TenantInfo,
                    tenants: map<string, TenantInfo>, keyIndex: map<string, string>)
    requires Rebuilt(infos, tenants, keyIndex) && k !in infos
    ensures Rebuilt(infos[k := info], tenants[info.id := info], keyIndex[info.apiKey := info.id])
  {
    hide Scanned, WellKeyed, Indexes, Unused;
    ScannedStep(infos, k, info, tenants, keyIndex);
    if WellKeyed(infos[k := info]) {
      WellKeyedBefore(infos, k, info);
      CacheWrite(infos, keyIndex, info);
    }
  }

  lemma TenantsOfMore(defs: Rows, todo: set<string>, k: string)
    requires k in todo && k in defs
    ensures k !in TenantsOf(defs - todo)
    ensures TenantsOf(defs - (todo - {k}))
            == if Read(defs[k]).Some? then TenantsOf(defs - todo)[k := Read(defs[k]).value] else TenantsOf(defs - todo)
  {
    hide Read;
  }

  /** Rehydrating caches that already mirror the table changes nothing. */
  lemma RehydrationAgrees(r: Registry, tenants: map<string, TenantInfo>, keyIndex: map<string, string>)
    requires Mirrors(r) && Rebuilt(TenantsOf(Definitions(r.tables)), tenants, keyIndex)
    ensures tenants == r.tenants && keyIndex == r.keyIndex
  {
    hide TenantsOf, Definitions, Scanned;
    IndexIsUnique(r.tenants, r.keyIndex, r.keyIndex);
    assert WellKeyed(r.tenants);
    IndexIsUnique(r.tenants, r.keyIndex, keyIndex);
  }

  // ---- Dropped rows -------------------------------------------------------------------------------------------------

  /** The rows a deletion takes away: every row of the tenant's tables, and its definition. */
  predicate Dropped(tables: map<string, Rows>, id: string, t: string, k: string) {
    (t in tables && BelongsToTenant(t, id) && k in tables[t]) || (t == TENANTS_TABLE && k == id)
  }

  /** The store once the tables outside `todo` have been emptied. */
  function PurgedSoFar(tables: map<string, Rows>, todo: set<string>, id: string): map<string, Rows> {
    map t | t in tables :: if t !in todo && BelongsToTenant(t, id) then map[] else tables[t]
  }

  lemma PurgedStep(tables: map<string, Rows>, todo: set<string>, id: string, t: string)
    requires t in todo && t in tables
    ensures var before := PurgedSoFar(tables, todo, id);
            t in before && before[t] == tables[t]
            && PurgedSoFar(tables, todo - {t}, id) == if BelongsToTenant(t, id) then before[t := map[]] else before
  {
    hide BelongsToTenant;
  }

  lemma PurgedStart(tables: map<string, Rows>, id: string)
    ensures PurgedSoFar(tables, tables.Keys, id) == tables
  {
  }

  ghost predicate DeltasSoFar(deltas: seq<(string, string)>, tables: map<string, Rows>, todo: set<string>, id: string) {
    NoRepeats(deltas)
    && forall t, k :: (t, k) in deltas <==> t in tables && t !in todo && BelongsToTenant(t, id) && k in tables[t]
  }

  lemma DeltasMore(deltas: seq<(string, string)>, more: seq<(string, string)>, tables: map<string, Rows>,
                   todo: set<string>, id: string, t: string)
    requires DeltasSoFar(deltas, tables, todo, id) && t in todo && t in tables && BelongsToTenant(t, id)
    requires NoRepeats(more) && forall u, k :: (u, k) in more <==> u == t && k in tables[t]
    ensures DeltasSoFar(deltas + more, tables, todo - {t}, id)
  {
    hide BelongsToTenant;
    forall i, j | 0 <= i < |deltas| <= j < |deltas + more| ensures (deltas + more)[i] != (deltas + more)[j] {
      var (u, k) := deltas[i];
      assert (u, k) in deltas;
      var (v, l) := more[j - |deltas|];
      assert (v, l) in more;
    }
  }

  lemma DeltasSkip(deltas: seq<(string, string)>, tables: map<string, Rows>, todo: set<string>, id: string, t: string)
    requires DeltasSoFar(deltas, tables, todo, id) && !BelongsToTenant(t, id)
    ensures DeltasSoFar(deltas, tables, todo - {t}, id)
  {
    hide BelongsToTenant;
  }

  /** Dropping the definition row completes the deletion. */
  lemma PurgeEnds(tables: map<string, Rows>, id: string, deltas: seq<(string, string)>)
    requires DeltasSoFar(deltas, tables, {}, id)
    ensures var sofar := PurgedSoFar(tables, {}, id);
            Purged(tables, id)
            == if TENANTS_TABLE in sofar then sofar[TENANTS_TABLE := sofar[TENANTS_TABLE] - {id}] else sofar
    ensures var all := deltas + [(TENANTS_TABLE, id)];
            NoRepeats(all) && forall t, k :: (t, k) in all <==> Dropped(tables, id, t, k)
  {
    assert !BelongsToTenant(TENANTS_TABLE, id) by { assert TENANTS_TABLE[0] == '_'; }
    hide BelongsToTenant;
    assert (TENANTS_TABLE, id) !in deltas;
  }

  // ---- The registry -------------------------------------------------------------------------------------------------

  class TenantRegistry {
    /** The table store the registry shares with the rest of the server. */
    var tables: map<string, Rows>
    var keyIndex: map<string, string>
    var tenants: map<string, TenantInfo>
    var buckets: map<string, Bucket>

    function State(): Registry
      reads this
    {
      Registry(tables, keyIndex, tenants)
    }

    constructor (store: map<string, Rows>)
      ensures tables == store && buckets == map[]
      ensures Rebuilt(TenantsOf(Definitions(store)), tenants, keyIndex)
    {
      tables, keyIndex, tenants, buckets := store, map[], map[], map[];
      new;
      Rehydrate();
    }

    method Rehydrate()
      modifies this`keyIndex, this`tenants
      ensures Rebuilt(TenantsOf(Definitions(tables)), tenants, keyIndex)
    {
      keyIndex, tenants := map[], map[];
      var defs := Definitions(tables);
      var todo := defs.Keys;
      while todo != {}
        invariant todo <= defs.Keys
        invariant Rebuilt(TenantsOf(defs - todo), tenants, keyIndex)
        decreases |todo|
      {
        var k :| k in todo;
        TenantsOfMore(defs, todo, k);
        hide Read, Definitions, Rebuilt, TenantsOf;
        var info := Read(defs[k]);
        if info.Some? {
          RebuiltStep(TenantsOf(defs - todo), k, info.value, tenants, keyIndex);
          keyIndex := keyIndex[info.value.apiKey := info.value.id];
          tenants := tenants[info.value.id := info.value];
        }
        todo := todo - {k};
      }
      assert defs - {} == defs;
    }

    /** `lowered` is the trimmed name in lower case; the two hex texts and the time are supplied. */
    method Create(rawName: string, lowered: string, maxRows: U64, maxCallsPerSec: U32,
                  idHex: string, keyHex: string, now: U64)
      returns (r: Result<TenantInfo, TenantError>)
      modifies this`tables, this`keyIndex, this`tenants
      ensures var refusal := CheckName(old(tenants), Trim(rawName));
              if refusal.Some? then r == Err(refusal.value) && State() == old(State())
              else
                r == Ok(TenantInfo(GenerateId(lowered, idHex), Trim(rawName), "ndbt_" + keyHex,
                                   maxRows, maxCallsPerSec, now))
                && State() == Created(old(State()), r.value)
    {
      var name := Trim(rawName);
      if name == [] {
        return Err(EmptyName);
      }
      if !ColonFree(name) {
        return Err(NameHasColon);
      }
      if exists i :: i in tenants && tenants[i].name == name {
        return Err(NameTaken);
      }
      var info := TenantInfo(GenerateId(lowered, idHex), name, "ndbt_" + keyHex, maxRows, maxCallsPerSec, now);
      tables := tables[TENANTS_TABLE := Definitions(tables)[info.id := Stored(info)]];
      keyIndex := keyIndex[info.apiKey := info.id];
      tenants := tenants[info.id := info];
      r := Ok(info);
    }

    method DropRows(t: string) returns (deltas: seq<(string, string)>)
      requires t in tables
      modifies this`tables
      ensures tables == old(tables)[t := map[]]
      ensures NoRepeats(deltas) && forall u, k :: (u, k) in deltas <==> u == t && k in old(tables)[t]
    {
      deltas := [];
      var todo := tables[t].Keys;
      while todo != {}
        invariant t in old(tables) && t in tables && todo <= old(tables)[t].Keys
        invariant tables[t].Keys == todo && tables == old(tables)[t := tables[t]]
        invariant NoRepeats(deltas)
        invariant forall u, k :: (u, k) in deltas <==> u == t && k in old(tables)[t] && k !in todo
        decreases |todo|
      {
        var k :| k in todo;
        todo := todo - {k};
        tables := tables[t := tables[t] - {k}];
        deltas := deltas + [(t, k)];
      }
    }

    method DropTables(id: string) returns (deltas: seq<(string, string)>)
      modifies this`tables
      ensures tables == PurgedSoFar(old(tables), {}, id) && DeltasSoFar(deltas, old(tables), {}, id)
    {
      deltas := [];
      var todo := tables.Keys;
      PurgedStart(tables, id);
      while todo != {}
        invariant todo <= old(tables).Keys
        invariant tables == PurgedSoFar(old(tables), todo, id)
        invariant DeltasSoFar(deltas, old(tables), todo, id)
        decreases |todo|
      {
        hide BelongsToTenant, DeltasSoFar, PurgedSoFar;
        var t :| t in todo;
        PurgedStep(old(tables), todo, id, t);
        if BelongsToTenant(t, id) {
          var more := DropRows(t);
          DeltasMore(deltas, more, old(tables), todo, id, t);
          deltas := deltas + more;
        } else {
          DeltasSkip(deltas, old(tables), todo, id, t);
        }
        todo := todo - {t};
      }
    }

    /** Returns the dropped rows for the caller to journal. */
    method Delete(id: string) returns (r: Result<seq<(string, string)>, TenantError>)
      modifies this
      ensures id !in old(tenants) ==> r == Err(UnknownTenant) && State() == old(State()) && buckets == old(buckets)
      ensures id in old(tenants) ==> State() == Deleted(old(State()), id) && buckets == old(buckets) - {id}
      ensures id in old(tenants) ==>
                r.Ok? && NoRepeats(r.value) && forall t, k :: (t, k) in r.value <==> Dropped(old(tables), id, t, k)
    {
      if id !in tenants {
        return Err(UnknownTenant);
      }
      var info := tenants[id];
      var deltas := DropTables(id);
      PurgeEnds(old(tables), id, deltas);
      hide Purged, PurgedSoFar, DeltasSoFar, NoRepeats, Dropped;
      if TENANTS_TABLE in tables {
        tables := tables[TENANTS_TABLE := tables[TENANTS_TABLE] - {id}];
      }
      deltas := deltas + [(TENANTS_TABLE, id)];
      keyIndex := keyIndex - {info.apiKey};
      tenants := tenants - {id};
      buckets := buckets - {id};
      r := Ok(deltas);
    }

    /** Whether the call is allowed; the tenant's bucket is made on its first call. */
    method CheckRate(id: string, now: real) returns (allowed: bool)
      modifies this`buckets
      ensures id !in tenants || tenants[id].maxCallsPerSec == 0 ==> allowed && buckets == old(buckets)
      ensures id in tenants && tenants[id].maxCallsPerSec > 0 ==>
                var limit := tenants[id].maxCallsPerSec;
                var b := if id in old(buckets) then old(buckets)[id] else Fresh(limit, now);
                allowed == Allows(b, limit, now) && buckets == old(buckets)[id := Taken(b, limit, now)]
    {
      if id !in tenants {
        return true;
      }
      var limit := tenants[id].maxCallsPerSec;
      if limit == 0 {
        return true;
      }
      if id !in buckets {
        buckets := buckets[id := Fresh(limit, now)];
      }
      var b := buckets[id];
      var tokens := Min(b.tokens + Refill(limit, Elapsed(b, now)), limit as real);
      if tokens >= 1.0 {
        tokens := tokens - 1.0;
        allowed := true;
      } else {
        allowed := false;
      }
      buckets := buckets[id := Bucket(tokens, now)];
    }
  }
}
