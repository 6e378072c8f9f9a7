// MultiTenantDataSource: a map from tenant IDs and slugs to connections, filled at Init, on every
// lookup that misses, and on every tenant-created event.
module TenantDataSource {
  import opened Wrappers
  import opened Bytes
  import opened UrlParams
  import opened SchemaRouting

  const DEFAULT: bytes := Ascii("default")
  const STRATEGY_SCHEMA: bytes := Ascii("schema")

  datatype Tenant = Tenant(id: bytes, slug: bytes, databaseUrl: bytes)

  datatype Config = Config(databaseUrl: bytes, strategy: bytes)

  // serial tells connections apart: the number of the attempt that opened it.
  datatype Cnx = Cnx(serial: nat, id: bytes, url: bytes, schema: bytes)

  // What the data source depends on: URL library, configuration, and which attempts to connect
  // reach their database.
  datatype World = World(lib: Library, cfg: Config, up: nat -> bool)

  datatype Registry = Registry(tenants: map<bytes, Cnx>, attempts: nat, established: seq<Cnx>)

  const EMPTY := Registry(map[], 0, [])

  function EntryOf(r: Registry, k: bytes): Option<Cnx> {
    if k in r.tenants then Some(r.tenants[k]) else None
  }

  // The tenant provider may be missing, and loading may fail.
  datatype Reload = NoProvider | LoadFails | Loads(list: seq<Tenant>)

  datatype Answer = Nil | Found(cnx: Cnx) | Panicked

  function TenantUrl(w: World, t: Tenant): bytes {
    if w.cfg.strategy == STRATEGY_SCHEMA && POSTGRES <= w.cfg.databaseUrl
    then AppendParamToUrl(w.lib, w.cfg.databaseUrl, SCHEMA, t.id)
    else t.databaseUrl
  }

  function Attempt(w: World, serial: nat, id: bytes, url: bytes): Option<Cnx> {
    match Configured(w.lib, url)
    case Some(target) => if w.up(serial) then Some(Cnx(serial, id, target.url, target.schema)) else None
    case None => None
  }

  function AfterConnect(w: World, r: Registry, id: bytes, url: bytes): Registry {
    match Attempt(w, r.attempts, id, url)
    case Some(c) => r.(attempts := r.attempts + 1, established := r.established + [c])
    case None => r.(attempts := r.attempts + 1)
  }

  function AfterTenant(w: World, r: Registry, t: Tenant): (Registry, bool) {
    if t.id in r.tenants then (r, true) else
      var r' := AfterConnect(w, r, t.id, TenantUrl(w, t));
      match Attempt(w, r.attempts, t.id, TenantUrl(w, t))
      case Some(c) => (r'.(tenants := r.tenants[t.id := c][t.slug := c]), true)
      case None => (r', false)
  }

  function AfterList(w: World, r: Registry, list: seq<Tenant>): (Registry, bool)
    decreases |list|
  {
    if list == [] then (r, true) else
      var (r', ok) := AfterTenant(w, r, list[0]);
      if ok then AfterList(w, r', list[1..]) else (r', false)
  }

  function AfterReload(w: World, r: Registry, reload: Reload): (Registry, bool) {
    match reload
    case NoProvider => (r, true)
    case LoadFails => (r, false)
    case Loads(list) => AfterList(w, r, list)
  }

  function AfterLookup(w: World, r: Registry, id: bytes, reload: Reload): (Registry, Answer) {
    if id in r.tenants then (r, Found(r.tenants[id])) else
      var (r', ok) := AfterReload(w, r, reload);
      (r', if !ok then Panicked else if id in r'.tenants then Found(r'.tenants[id]) else Nil)
  }

  function AfterInit(w: World, reload: Reload): (Registry, bool) {
    if w.cfg.databaseUrl == [] then AfterReload(w, EMPTY, reload) else
      var r := AfterConnect(w, EMPTY, DEFAULT, w.cfg.databaseUrl);
      match Attempt(w, 0, DEFAULT, w.cfg.databaseUrl)
      case Some(c) => AfterReload(w, r.(tenants := map[DEFAULT := c]), reload)
      case None => (r, false)
  }

  // ---------------------------------------------------------------- the data source

  class MultiTenantDataSource {
    const world: World
    var tenants: map<bytes, Cnx>
    var attempts: nat
    var established: seq<Cnx>

    ghost function State(): Registry
      reads this
    {
      Registry(tenants, attempts, established)
    }

    constructor (w: World)
      ensures world == w && State() == EMPTY
    {
      world := w;
      tenants, attempts, established := map[], 0, [];
    }

    method Connect(id: bytes, url: bytes) returns (r: Option<Cnx>)
      modifies this
      ensures r == Attempt(world, old(attempts), id, url)
      ensures State() == AfterConnect(world, old(State()), id, url)
    {
      var serial := attempts;
      attempts := attempts + 1;
      var cnx := new ConnectionImpl(id, url);
      var ok := cnx.Configure(world.lib, world.up(serial));
      if !ok {
        return None;
      }
      var value := Cnx(serial, cnx.Id, cnx.Url, cnx.schema);
      established := established + [value];
      return Some(value);
    }

    method InitTenant(t: Tenant) returns (ok: bool)
      modifies this
      ensures (State(), ok) == AfterTenant(world, old(State()), t)
    {
      if t.id in tenants {
        return true;
      }
      var dbUrl := t.databaseUrl;
      if world.cfg.strategy == STRATEGY_SCHEMA && POSTGRES <= world.cfg.databaseUrl {
        dbUrl := AppendParamToUrl(world.lib, world.cfg.databaseUrl, SCHEMA, t.id);
      }
      var cnx := Connect(t.id, dbUrl);
      if cnx.None? {
        return false;
      }
      tenants := tenants[t.id := cnx.value];
      tenants := tenants[t.slug := cnx.value];
      return true;
    }

    method InitAll(reload: Reload) returns (ok: bool)
      modifies this
      ensures (State(), ok) == AfterReload(world, old(State()), reload)
    {
      match reload
      case NoProvider => return true;
      case LoadFails => return false;
      case Loads(list) =>
        for i := 0 to |list|
          invariant AfterList(world, State(), list[i..]) == AfterList(world, old(State()), list)
        {
          assert list[i..][1..] == list[i + 1..];
          var inited := InitTenant(list[i]);
          if !inited {
            return false;
          }
        }
        return true;
    }

    method Init(reload: Reload) returns (ok: bool)
      requires State() == EMPTY
      modifies this
      ensures (State(), ok) == AfterInit(world, reload)
    {
      if world.cfg.databaseUrl != [] {
        var cnx := Connect(DEFAULT, world.cfg.databaseUrl);
        if cnx.None? {
          return false;
        }
        tenants := tenants[DEFAULT := cnx.value];
      }
      ok := InitAll(reload);
    }

    method DefaultConnection() returns (r: Option<Cnx>)
      ensures r == EntryOf(State(), DEFAULT)
    {
      return if DEFAULT in tenants then Some(tenants[DEFAULT]) else None;
    }

    method Connection(id: bytes, reload: Reload) returns (answer: Answer)
      modifies this
      ensures (State(), answer) == AfterLookup(world, old(State()), id, reload)
    {
      if id in tenants {
        return Found(tenants[id]);
      }
      var ok := InitAll(reload);
      if !ok {
        return Panicked;
      }
      if id in tenants {
        return Found(tenants[id]);
      }
      return Nil;
    }
  }

  // ---------------------------------------------------------------- what every registry satisfies

  predicate IsKey(t: Tenant, k: bytes) {
    k == t.id || k == t.slug
  }

  // IDs and slugs are disjoint between tenants, none is "default", and slugs are stable: a
  // property of all the tenants the provider and the events ever mention.
  ghost predicate Separate(us: set<Tenant>) {
    && (forall t :: t in us ==> !IsKey(t, DEFAULT))
    && (forall t, u :: t in us && u in us && t.id == u.id ==> t.slug == u.slug)
    && (forall t, u, k :: t in us && u in us && IsKey(t, k) && IsKey(u, k) ==> t.id == u.id)
  }

  ghost predicate TenantOk(r: Registry, t: Tenant) {
    && (t.id in r.tenants <==> t.slug in r.tenants)
    && (t.id in r.tenants ==> r.tenants[t.id] == r.tenants[t.slug] && r.tenants[t.id].id == t.id)
  }

  ghost predicate EntryOk(r: Registry, us: set<Tenant>, k: bytes)
    requires k in r.tenants
  {
    && r.tenants[k] in r.established
    && (if k == DEFAULT then r.tenants[k].id == DEFAULT else exists t :: t in us && IsKey(t, k) && t.id in r.tenants)
  }

  // Every connection opened is registered under its own ID, no ID was opened twice.
  ghost predicate OpenedOk(r: Registry) {
    && (forall i :: 0 <= i < |r.established| ==>
          && r.established[i].id in r.tenants && r.tenants[r.established[i].id] == r.established[i]
          && r.established[i].serial < r.attempts)
    && (forall i, j :: 0 <= i < j < |r.established| ==>
          r.established[i].id != r.established[j].id && r.established[i].serial < r.established[j].serial)
  }

  ghost predicate Inv(r: Registry, us: set<Tenant>) {
    && (forall t :: t in us ==> TenantOk(r, t))
    && (forall k :: k in r.tenants ==> EntryOk(r, us, k))
    && OpenedOk(r)
  }

  // No entry is lost or replaced.
  ghost predicate Extends(r: Registry, r': Registry) {
    && (forall k :: k in r.tenants ==> k in r'.tenants && r'.tenants[k] == r.tenants[k])
    && r.established <= r'.established
  }

  lemma ExtendsTransitive(a: Registry, b: Registry, c: Registry)
    requires Extends(a, b) && Extends(b, c)
    ensures Extends(a, c)
  {
  }

  lemma NewTenant(r: Registry, us: set<Tenant>, t: Tenant)
    requires Separate(us) && Inv(r, us) && t in us && t.id !in r.tenants
    ensures t.slug !in r.tenants
  {
    assert TenantOk(r, t);
  }

  function WithTenant(r: Registry, t: Tenant, c: Cnx): Registry {
    Registry(r.tenants[t.id := c][t.slug := c], r.attempts + 1, r.established + [c])
  }

  lemma AddedTenantOk(r: Registry, us: set<Tenant>, t: Tenant, c: Cnx, u: Tenant)
    requires Separate(us) && t in us && u in us && TenantOk(r, u)
    requires t.id !in r.tenants && t.slug !in r.tenants && c.id == t.id
    ensures TenantOk(WithTenant(r, t, c), u)
  {
    if u.id != t.id {
      assert IsKey(u, u.id) && IsKey(u, u.slug);
      assert !IsKey(t, u.id) && !IsKey(t, u.slug);
    }
  }

  lemma AddedEntryOk(r: Registry, us: set<Tenant>, t: Tenant, c: Cnx, k: bytes)
    requires Separate(us) && t in us && c.id == t.id && (k in r.tenants ==> EntryOk(r, us, k))
    requires k in WithTenant(r, t, c).tenants
    ensures EntryOk(WithTenant(r, t, c), us, k)
  {
    var r' := WithTenant(r, t, c);
    if IsKey(t, k) {
      assert r'.tenants[k] == r'.established[|r.established|];
    }
  }

  lemma AddedOpenedOk(r: Registry, t: Tenant, c: Cnx)
    requires OpenedOk(r) && t.id !in r.tenants && t.slug !in r.tenants && c.id == t.id && c.serial == r.attempts
    ensures OpenedOk(WithTenant(r, t, c)) && Extends(r, WithTenant(r, t, c))
  {
  }

  lemma AddedTenant(r: Registry, us: set<Tenant>, t: Tenant, c: Cnx)
    requires Separate(us) && Inv(r, us) && t in us && t.id !in r.tenants && t.slug !in r.tenants
    requires c.id == t.id && c.serial == r.attempts
    ensures Inv(WithTenant(r, t, c), us) && Extends(r, WithTenant(r, t, c))
  {
    var r' := WithTenant(r, t, c);
    forall u | u in us ensures TenantOk(r', u) {
      AddedTenantOk(r, us, t, c, u);
    }
    forall k | k in r'.tenants ensures EntryOk(r', us, k) {
      AddedEntryOk(r, us, t, c, k);
    }
    AddedOpenedOk(r, t, c);
    hide TenantOk, EntryOk, Separate, OpenedOk, Extends, WithTenant;
  }

  lemma ConnectedTenant(w: World, r: Registry, t: Tenant)
    requires t.id !in r.tenants
    ensures match Attempt(w, r.attempts, t.id, TenantUrl(w, t))
            case Some(c) => AfterTenant(w, r, t) == (WithTenant(r, t, c), true) && c.serial == r.attempts && c.id == t.id
            case None => AfterTenant(w, r, t) == (r.(attempts := r.attempts + 1), false)
  {
    hide TenantUrl, Configured;
  }

  // A failed attempt changes nothing but the number of attempts.
  lemma FailedAttempt(r: Registry, us: set<Tenant>)
    requires Inv(r, us)
    ensures Inv(r.(attempts := r.attempts + 1), us) && Extends(r, r.(attempts := r.attempts + 1))
  {
    var r' := r.(attempts := r.attempts + 1);
    assert OpenedOk(r');
    hide OpenedOk;
    forall t | t in us ensures TenantOk(r', t) {
      assert TenantOk(r, t);
    }
    forall k | k in r'.tenants ensures EntryOk(r', us, k) {
      assert EntryOk(r, us, k);
    }
  }

  lemma WithTenantHolds(r: Registry, t: Tenant, c: Cnx)
    ensures t.id in WithTenant(r, t, c).tenants && t.slug in WithTenant(r, t, c).tenants
  {
  }

  lemma KnownTenant(r: Registry, us: set<Tenant>, t: Tenant)
    requires Inv(r, us) && t in us && t.id in r.tenants
    ensures t.slug in r.tenants
  {
    assert TenantOk(r, t);
  }

  lemma TenantKeeps(w: World, r: Registry, us: set<Tenant>, t: Tenant)
    requires Separate(us) && Inv(r, us) && t in us
    ensures var (r', ok) := AfterTenant(w, r, t);
            Inv(r', us) && Extends(r, r') && (ok ==> t.id in r'.tenants && t.slug in r'.tenants)
  {
    if t.id in r.tenants {
      hide Inv, Separate, Extends;
      KnownTenant(r, us, t);
      ExtendsReflexive(r);
    } else {
      hide TenantUrl, Attempt, AfterTenant, Inv, Separate, Extends, WithTenant;
      ConnectedTenant(w, r, t);
      NewTenant(r, us, t);
      match Attempt(w, r.attempts, t.id, TenantUrl(w, t))
      case Some(c) =>
        AddedTenant(r, us, t, c);
        WithTenantHolds(r, t, c);
      case None =>
        FailedAttempt(r, us);
    }
  }

  lemma {:induction false} ListKeeps(w: World, r: Registry, us: set<Tenant>, list: seq<Tenant>)
    requires Separate(us) && Inv(r, us) && forall t :: t in list ==> t in us
    ensures Inv(AfterList(w, r, list).0, us) && Extends(r, AfterList(w, r, list).0)
    decreases |list|
  {
    if list != [] {
      hide Inv, Separate, AfterTenant, Extends;
      ExtendsReflexive(r);
      TenantKeeps(w, r, us, list[0]);
      var (r1, ok) := AfterTenant(w, r, list[0]);
      if ok {
        ListKeeps(w, r1, us, list[1..]);
        ExtendsTransitive(r, r1, AfterList(w, r1, list[1..]).0);
      }
    }
  }

  lemma ExtendsReflexive(r: Registry)
    ensures Extends(r, r)
  {
  }

  lemma ExtendsKeeps(r: Registry, r': Registry, k: bytes)
    requires Extends(r, r') && k in r.tenants
    ensures k in r'.tenants && r'.tenants[k] == r.tenants[k]
  {
  }

  // A load that goes through registers both keys of every tenant on the list.
  lemma {:induction false} ListRegisters(w: World, r: Registry, us: set<Tenant>, list: seq<Tenant>, t: Tenant)
    requires Separate(us) && Inv(r, us) && (forall u :: u in list ==> u in us) && t in list
    requires AfterList(w, r, list).1
    ensures t.id in AfterList(w, r, list).0.tenants && t.slug in AfterList(w, r, list).0.tenants
    decreases |list|
  {
    var (r1, ok) := AfterTenant(w, r, list[0]);
    var rest := list[1..];
    assert t == list[0] || t in rest;
    assert ok && AfterList(w, r, list) == AfterList(w, r1, rest);
    hide Inv, Separate, AfterTenant, Extends, AfterList;
    TenantKeeps(w, r, us, list[0]);
    if t in rest {
      ListRegisters(w, r1, us, rest, t);
    } else {
      ListKeeps(w, r1, us, rest);
      ExtendsKeeps(r1, AfterList(w, r1, rest).0, list[0].id);
      ExtendsKeeps(r1, AfterList(w, r1, rest).0, list[0].slug);
    }
  }

  ghost predicate Within(reload: Reload, us: set<Tenant>) {
    reload.Loads? ==> forall t :: t in reload.list ==> t in us
  }

  lemma ReloadKeeps(w: World, r: Registry, us: set<Tenant>, reload: Reload)
    requires Separate(us) && Inv(r, us) && Within(reload, us)
    ensures Inv(AfterReload(w, r, reload).0, us) && Extends(r, AfterReload(w, r, reload).0)
  {
    if reload.Loads? {
      ListKeeps(w, r, us, reload.list);
    }
  }

  function OnlyDefault(c: Cnx): Registry {
    Registry(map[DEFAULT := c], 1, [c])
  }

  // The registry before the first load: the default connection is in it if one is configured.
  function Started(w: World): Registry {
    if w.cfg.databaseUrl == [] then EMPTY else
      match Attempt(w, 0, DEFAULT, w.cfg.databaseUrl)
      case Some(c) => OnlyDefault(c)
      case None => EMPTY
  }

  lemma InitContinues(w: World, reload: Reload)
    requires w.cfg.databaseUrl != [] ==> Attempt(w, 0, DEFAULT, w.cfg.databaseUrl).Some?
    ensures AfterInit(w, reload) == AfterReload(w, Started(w), reload)
  {
    hide Configured, AfterReload;
    if w.cfg.databaseUrl != [] {
      assert [] + [Attempt(w, 0, DEFAULT, w.cfg.databaseUrl).value] == [Attempt(w, 0, DEFAULT, w.cfg.databaseUrl).value];
    }
  }

  lemma InitIs(w: World, reload: Reload)
    requires AfterInit(w, reload).1
    ensures AfterInit(w, reload) == AfterReload(w, Started(w), reload)
  {
    hide Attempt, AfterReload, Started;
    if w.cfg.databaseUrl == [] || Attempt(w, 0, DEFAULT, w.cfg.databaseUrl).Some? {
      InitContinues(w, reload);
    }
  }

  lemma OnlyDefaultOk(us: set<Tenant>, c: Cnx)
    requires Separate(us) && c.serial == 0 && c.id == DEFAULT
    ensures Inv(OnlyDefault(c), us)
  {
    forall t | t in us ensures TenantOk(OnlyDefault(c), t) {
      assert !IsKey(t, DEFAULT);
    }
    assert OnlyDefault(c).established[0] == c;
  }

  lemma StartedOk(w: World, us: set<Tenant>)
    requires Separate(us)
    ensures Inv(Started(w), us)
  {
    hide Configured;
    var c := Attempt(w, 0, DEFAULT, w.cfg.databaseUrl);
    if w.cfg.databaseUrl != [] && c.Some? {
      OnlyDefaultOk(us, c.value);
    }
  }

  lemma InitEstablishes(w: World, us: set<Tenant>, reload: Reload)
    requires Separate(us) && Within(reload, us)
    ensures AfterInit(w, reload).1 ==> Inv(AfterInit(w, reload).0, us)
  {
    if AfterInit(w, reload).1 {
      InitIs(w, reload);
      hide AfterInit, Started, Separate, Inv, AfterReload;
      StartedOk(w, us);
      ReloadKeeps(w, Started(w), us, reload);
    }
  }

  // ---------------------------------------------------------------- every history after Init

  datatype Op = Lookup(id: bytes, reload: Reload) | TenantCreated(tenant: Tenant)

  function AfterOp(w: World, r: Registry, op: Op): Registry {
    match op
    case Lookup(id, reload) => AfterLookup(w, r, id, reload).0
    case TenantCreated(t) => AfterTenant(w, r, t).0
  }

  function AfterOps(w: World, r: Registry, ops: seq<Op>): Registry
    decreases |ops|
  {
    if ops == [] then r else AfterOps(w, AfterOp(w, r, ops[0]), ops[1..])
  }

  ghost predicate OpWithin(op: Op, us: set<Tenant>) {
    if op.Lookup? then Within(op.reload, us) else op.tenant in us
  }

  lemma {:induction false} OpsKeep(w: World, r: Registry, us: set<Tenant>, ops: seq<Op>)
    requires Separate(us) && Inv(r, us) && forall i :: 0 <= i < |ops| ==> OpWithin(ops[i], us)
    ensures Inv(AfterOps(w, r, ops), us) && Extends(r, AfterOps(w, r, ops))
    decreases |ops|
  {
    if ops != [] {
      var r1 := AfterOp(w, r, ops[0]);
      if ops[0].Lookup? {
        ReloadKeeps(w, r, us, ops[0].reload);
      } else {
        TenantKeeps(w, r, us, ops[0].tenant);
      }
      assert Inv(r1, us) && Extends(r, r1);
      OpsKeep(w, r1, us, ops[1..]);
      ExtendsTransitive(r, r1, AfterOps(w, r1, ops[1..]));
    }
  }

  // Both keys of a tenant give one connection.
  ghost predicate KeysAgree(r: Registry, us: set<Tenant>) {
    forall t :: t in us ==>
      && (t.id in r.tenants <==> t.slug in r.tenants)
      && (t.id in r.tenants ==> r.tenants[t.id] == r.tenants[t.slug])
  }

  // Different tenants never share a connection.
  ghost predicate NoneShared(r: Registry, us: set<Tenant>) {
    forall t, u, k, l :: t in us && u in us && t.id != u.id && IsKey(t, k) && IsKey(u, l) && k in r.tenants && l in r.tenants ==>
      r.tenants[k].serial != r.tenants[l].serial
  }

  // No tenant gets the default connection.
  ghost predicate NoneDefault(r: Registry, us: set<Tenant>) {
    forall t, k :: t in us && IsKey(t, k) && k in r.tenants && DEFAULT in r.tenants ==>
      r.tenants[k].serial != r.tenants[DEFAULT].serial
  }

  // No ID was connected twice.
  ghost predicate OpenedOnce(r: Registry) {
    forall i, j :: 0 <= i < j < |r.established| ==> r.established[i].id != r.established[j].id
  }

  // What callers rely on.
  ghost predicate Isolated(r: Registry, us: set<Tenant>) {
    KeysAgree(r, us) && NoneShared(r, us) && NoneDefault(r, us) && OpenedOnce(r)
  }

  lemma OpenedApart(r: Registry, i: nat, j: nat)
    requires OpenedOk(r) && i < |r.established| && j < |r.established| && r.established[i].id != r.established[j].id
    ensures r.established[i].serial != r.established[j].serial
  {
    if i < j {
    } else {
      assert j < i;
    }
  }

  lemma DifferentSerials(r: Registry, us: set<Tenant>, k: bytes, l: bytes)
    requires Inv(r, us) && k in r.tenants && l in r.tenants && r.tenants[k].id != r.tenants[l].id
    ensures r.tenants[k].serial != r.tenants[l].serial
  {
    assert EntryOk(r, us, k) && EntryOk(r, us, l);
    var i :| 0 <= i < |r.established| && r.established[i] == r.tenants[k];
    var j :| 0 <= j < |r.established| && r.established[j] == r.tenants[l];
    hide OpenedOk, TenantOk, EntryOk;
    OpenedApart(r, i, j);
  }

  lemma KeyIsOwn(r: Registry, us: set<Tenant>, t: Tenant, k: bytes)
    requires Separate(us) && Inv(r, us) && t in us && IsKey(t, k) && k in r.tenants
    ensures r.tenants[k].id == t.id && t.id != DEFAULT
  {
    assert TenantOk(r, t) && IsKey(t, t.id);
  }

  lemma TenantsDiffer(r: Registry, us: set<Tenant>, t: Tenant, u: Tenant, k: bytes, l: bytes)
    requires Separate(us) && Inv(r, us) && t in us && u in us && t.id != u.id
    requires IsKey(t, k) && IsKey(u, l) && k in r.tenants && l in r.tenants
    ensures r.tenants[k].serial != r.tenants[l].serial
  {
    KeyIsOwn(r, us, t, k);
    KeyIsOwn(r, us, u, l);
    hide Inv, Separate;
    DifferentSerials(r, us, k, l);
  }

  lemma InvNoneShared(r: Registry, us: set<Tenant>)
    requires Separate(us) && Inv(r, us)
    ensures NoneShared(r, us)
  {
    hide Separate, Inv, IsKey;
    forall t, u, k, l | t in us && u in us && t.id != u.id && IsKey(t, k) && IsKey(u, l) && k in r.tenants && l in r.tenants
      ensures r.tenants[k].serial != r.tenants[l].serial
    {
      TenantsDiffer(r, us, t, u, k, l);
    }
  }

  lemma InvNoneDefault(r: Registry, us: set<Tenant>)
    requires Separate(us) && Inv(r, us)
    ensures NoneDefault(r, us)
  {
    assert DEFAULT in r.tenants ==> EntryOk(r, us, DEFAULT);
    hide Separate, Inv, IsKey;
    forall t, k | t in us && IsKey(t, k) && k in r.tenants && DEFAULT in r.tenants
      ensures r.tenants[k].serial != r.tenants[DEFAULT].serial
    {
      KeyIsOwn(r, us, t, k);
      DifferentSerials(r, us, k, DEFAULT);
    }
  }

  lemma InvKeysAgree(r: Registry, us: set<Tenant>)
    requires Inv(r, us)
    ensures KeysAgree(r, us) && OpenedOnce(r)
  {
    forall t | t in us ensures TenantOk(r, t) {
    }
  }

  lemma InvIsolates(r: Registry, us: set<Tenant>)
    requires Separate(us) && Inv(r, us)
    ensures Isolated(r, us)
  {
    InvKeysAgree(r, us);
    InvNoneShared(r, us);
    InvNoneDefault(r, us);
  }

  // After one Init, over any sequence of lookups, reloads and tenant-created events, whatever
  // connections fail on the way.
  lemma EveryHistoryIsIsolated(w: World, us: set<Tenant>, reload: Reload, ops: seq<Op>)
    requires Separate(us) && Within(reload, us) && AfterInit(w, reload).1
    requires forall i :: 0 <= i < |ops| ==> OpWithin(ops[i], us)
    ensures Isolated(AfterOps(w, AfterInit(w, reload).0, ops), us)
    ensures Extends(AfterInit(w, reload).0, AfterOps(w, AfterInit(w, reload).0, ops))
  {
    hide Separate, Inv, AfterInit, AfterOps, Within, OpWithin, Extends, Isolated;
    InitEstablishes(w, us, reload);
    OpsKeep(w, AfterInit(w, reload).0, us, ops);
    InvIsolates(AfterOps(w, AfterInit(w, reload).0, ops), us);
  }

  // ---------------------------------------------------------------- keys of nobody, and the default

  ghost predicate IsStranger(us: set<Tenant>, k: bytes) {
    forall t :: t in us ==> !IsKey(t, k)
  }

  lemma TenantSkips(w: World, r: Registry, t: Tenant, k: bytes)
    requires !IsKey(t, k)
    ensures EntryOf(AfterTenant(w, r, t).0, k) == EntryOf(r, k)
  {
    hide Attempt, TenantUrl;
  }

  lemma {:induction false} ListSkips(w: World, r: Registry, list: seq<Tenant>, k: bytes)
    requires forall t :: t in list ==> !IsKey(t, k)
    ensures EntryOf(AfterList(w, r, list).0, k) == EntryOf(r, k)
    decreases |list|
  {
    if list != [] {
      hide AfterTenant, IsKey, EntryOf;
      TenantSkips(w, r, list[0], k);
      ListSkips(w, AfterTenant(w, r, list[0]).0, list[1..], k);
    }
  }

  lemma ReloadSkips(w: World, r: Registry, us: set<Tenant>, reload: Reload, k: bytes)
    requires IsStranger(us, k) && Within(reload, us)
    ensures EntryOf(AfterReload(w, r, reload).0, k) == EntryOf(r, k)
  {
    if reload.Loads? {
      ListSkips(w, r, reload.list, k);
    }
  }

  lemma {:induction false} OpsSkip(w: World, r: Registry, us: set<Tenant>, ops: seq<Op>, k: bytes)
    requires IsStranger(us, k) && forall i :: 0 <= i < |ops| ==> OpWithin(ops[i], us)
    ensures EntryOf(AfterOps(w, r, ops), k) == EntryOf(r, k)
    decreases |ops|
  {
    if ops != [] {
      assert OpWithin(ops[0], us);
      hide AfterTenant, AfterReload, IsKey, EntryOf;
      if ops[0].Lookup? {
        ReloadSkips(w, r, us, ops[0].reload, k);
      } else {
        TenantSkips(w, r, ops[0].tenant, k);
      }
      OpsSkip(w, AfterOp(w, r, ops[0]), us, ops[1..], k);
    }
  }

  lemma StartedEntry(w: World, reload: Reload, k: bytes)
    requires AfterInit(w, reload).1
    ensures EntryOf(Started(w), k) == if k == DEFAULT && w.cfg.databaseUrl != [] then Attempt(w, 0, DEFAULT, w.cfg.databaseUrl) else None
  {
    hide Configured, AfterReload;
  }

  // In every history the entry of a key that is no tenant's is the default connection opened at
  // Init, if it is the default key and there is one, and none otherwise.
  lemma StrangerEntry(w: World, us: set<Tenant>, reload: Reload, ops: seq<Op>, k: bytes)
    requires IsStranger(us, k) && Within(reload, us) && AfterInit(w, reload).1
    requires forall i :: 0 <= i < |ops| ==> OpWithin(ops[i], us)
    ensures EntryOf(AfterOps(w, AfterInit(w, reload).0, ops), k)
         == if k == DEFAULT && w.cfg.databaseUrl != [] then Attempt(w, 0, DEFAULT, w.cfg.databaseUrl) else None
  {
    InitIs(w, reload);
    StartedEntry(w, reload, k);
    hide AfterInit, AfterOps, AfterReload, Started, EntryOf, Attempt, IsStranger, Within, OpWithin;
    ReloadSkips(w, Started(w), us, reload, k);
    OpsSkip(w, AfterInit(w, reload).0, us, ops, k);
  }

  // So DefaultConnection always answers the connection opened first, as long as no tenant takes its key.
  lemma DefaultIsStable(w: World, us: set<Tenant>, reload: Reload, ops: seq<Op>)
    requires IsStranger(us, DEFAULT) && Within(reload, us) && AfterInit(w, reload).1
    requires forall i :: 0 <= i < |ops| ==> OpWithin(ops[i], us)
    ensures EntryOf(AfterOps(w, AfterInit(w, reload).0, ops), DEFAULT)
         == if w.cfg.databaseUrl == [] then None else Attempt(w, 0, DEFAULT, w.cfg.databaseUrl)
    ensures w.cfg.databaseUrl != [] ==>
              var c := Attempt(w, 0, DEFAULT, w.cfg.databaseUrl);
              c.Some? && c.value.serial == 0 && c.value.id == DEFAULT
              && Configured(w.lib, w.cfg.databaseUrl) == Some(Target(c.value.url, c.value.schema))
  {
    hide Configured, AfterReload;
    InitIs(w, reload);
    hide AfterInit, AfterOps, EntryOf, IsStranger, Within, OpWithin;
    StrangerEntry(w, us, reload, ops, DEFAULT);
  }

  // And a lookup of such a key answers the default connection or, if the load goes through, nil,
  // after every history.
  lemma NilIsForStrangers(w: World, us: set<Tenant>, reload: Reload, ops: seq<Op>, k: bytes, last: Reload)
    requires IsStranger(us, k) && Within(reload, us) && AfterInit(w, reload).1 && Within(last, us)
    requires forall i :: 0 <= i < |ops| ==> OpWithin(ops[i], us)
    ensures var r := AfterOps(w, AfterInit(w, reload).0, ops);
            var default := if k == DEFAULT && w.cfg.databaseUrl != [] then Attempt(w, 0, DEFAULT, w.cfg.databaseUrl) else None;
            AfterLookup(w, r, k, last).1
            == if default.Some? then Found(default.value) else if AfterReload(w, r, last).1 then Nil else Panicked
  {
    var r := AfterOps(w, AfterInit(w, reload).0, ops);
    StrangerEntry(w, us, reload, ops, k);
    ReloadSkips(w, r, us, last, k);
    hide AfterInit, AfterOps, AfterReload, Attempt, IsStranger, Within, OpWithin;
  }

  lemma UnlistedIn(w: World, r: Registry, us: set<Tenant>, k: bytes, list: seq<Tenant>)
    requires Separate(us) && Inv(r, us) && Within(Loads(list), us)
    requires AfterLookup(w, r, k, Loads(list)).1 == Nil
    ensures forall t :: t in list ==> !IsKey(t, k)
  {
    hide Separate, Inv, AfterList;
    forall t | t in list ensures !IsKey(t, k) {
      ListRegisters(w, r, us, list, t);
    }
  }

  // After every history a lookup answers nil only for keys that belong to nobody on the list just loaded.
  lemma NilIsForUnlisted(w: World, us: set<Tenant>, reload: Reload, ops: seq<Op>, k: bytes, list: seq<Tenant>)
    requires Separate(us) && Within(reload, us) && AfterInit(w, reload).1 && Within(Loads(list), us)
    requires forall i :: 0 <= i < |ops| ==> OpWithin(ops[i], us)
    requires AfterLookup(w, AfterOps(w, AfterInit(w, reload).0, ops), k, Loads(list)).1 == Nil
    ensures forall t :: t in list ==> !IsKey(t, k)
  {
    hide Separate, Inv, AfterInit, AfterOps, AfterLookup, Within, OpWithin, Extends;
    InitEstablishes(w, us, reload);
    OpsKeep(w, AfterInit(w, reload).0, us, ops);
    UnlistedIn(w, AfterOps(w, AfterInit(w, reload).0, ops), us, k, list);
  }

  // ---------------------------------------------------------------- exactly when tenants are isolated

  ghost predicate AllRegistered(r: Registry, us: set<Tenant>) {
    forall t, k :: t in us && IsKey(t, k) ==> k in r.tenants
  }

  // The first tenant on the list with its ID: the one that gets connected.
  ghost predicate IsFirst(list: seq<Tenant>, i: nat) {
    i < |list| && forall j :: 0 <= j < i ==> list[j].id != list[i].id
  }

  // The slug is a key of the first tenant with the same ID.
  ghost predicate SlugKept(list: seq<Tenant>, t: Tenant) {
    exists i: nat :: IsFirst(list, i) && list[i].id == t.id && IsKey(list[i], t.slug)
  }

  // What must hold of a list of tenants.
  ghost predicate OwnKeys(list: seq<Tenant>) {
    && (forall t :: t in list ==> !IsKey(t, DEFAULT))
    && (forall t, u, k :: t in list && u in list && IsKey(t, k) && IsKey(u, k) ==> t.id == u.id)
    && (forall t :: t in list ==> SlugKept(list, t))
  }

  function Firsts(list: seq<Tenant>, known: set<bytes>): seq<Tenant> {
    if list == [] then []
    else if list[0].id in known then Firsts(list[1..], known)
    else [list[0]] + Firsts(list[1..], known + {list[0].id})
  }

  // The others are skipped.
  lemma {:induction false} FirstsSuffice(w: World, r: Registry, list: seq<Tenant>, known: set<bytes>)
    requires forall id :: id in known ==> id in r.tenants
    ensures AfterList(w, r, list) == AfterList(w, r, Firsts(list, known))
    decreases |list|
  {
    if list != [] {
      var t := list[0];
      var (r1, ok) := AfterTenant(w, r, t);
      hide Attempt, TenantUrl;
      if t.id in known {
        FirstsSuffice(w, r, list[1..], known);
      } else {
        var rest := Firsts(list[1..], known + {t.id});
        assert ([t] + rest)[0] == t && ([t] + rest)[1..] == rest;
        if ok {
          FirstsSuffice(w, r1, list[1..], known + {t.id});
        }
      }
    }
  }

  lemma {:induction false} FirstsAre(list: seq<Tenant>, known: set<bytes>)
    ensures forall f :: f in Firsts(list, known) ==> f in list && f.id !in known
    ensures forall f, g :: f in Firsts(list, known) && g in Firsts(list, known) && f.id == g.id ==> f == g
    ensures forall i: nat :: IsFirst(list, i) && list[i].id !in known ==> list[i] in Firsts(list, known)
  {
    if list != [] {
      var t, rest := list[0], list[1..];
      FirstsAre(rest, known);
      FirstsAre(rest, known + {t.id});
      forall i: nat | IsFirst(list, i) && list[i].id !in known ensures list[i] in Firsts(list, known) {
        if i > 0 {
          assert rest[i - 1] == list[i] && t.id != list[i].id;
          assert IsFirst(rest, i - 1) by {
            forall j | 0 <= j < i - 1 ensures rest[j].id != list[i].id {
              assert list[j + 1] == rest[j];
            }
          }
        }
      }
    }
  }

  lemma FirstShifts(list: seq<Tenant>, i: nat)
    requires list != [] && IsFirst(list[1..], i) && list[1..][i].id != list[0].id
    ensures IsFirst(list, i + 1) && list[i + 1] == list[1..][i]
  {
    forall j | 0 <= j < i + 1 ensures list[j].id != list[i + 1].id {
      assert j > 0 ==> list[j] == list[1..][j - 1];
    }
  }

  // One attempt brings in no other keys than those of its tenant.
  lemma TenantBringsOwnKeys(w: World, r: Registry, t: Tenant, k: bytes)
    requires k !in r.tenants && k in AfterTenant(w, r, t).0.tenants
    ensures t.id !in r.tenants && IsKey(t, k)
  {
    hide Attempt, TenantUrl;
  }

  lemma TenantLosesNoKey(w: World, r: Registry, t: Tenant, id: bytes)
    requires id in r.tenants || (id == t.id && AfterTenant(w, r, t).1)
    ensures id in AfterTenant(w, r, t).0.tenants
  {
    hide Attempt, TenantUrl;
  }

  // Every new key is one of a first tenant.
  lemma {:induction false} NewKeysAre(w: World, r: Registry, list: seq<Tenant>, k: bytes)
    requires k in AfterList(w, r, list).0.tenants && k !in r.tenants
    ensures exists i: nat :: IsFirst(list, i) && list[i].id !in r.tenants && IsKey(list[i], k)
    decreases |list|
  {
    var t := list[0];
    var (r1, ok) := AfterTenant(w, r, t);
    assert k in r1.tenants || (ok && k in AfterList(w, r1, list[1..]).0.tenants);
    assert IsFirst(list, 0);
    hide AfterTenant, AfterList, IsKey;
    if k in r1.tenants {
      TenantBringsOwnKeys(w, r, t, k);
    } else {
      NewKeysAre(w, r1, list[1..], k);
      var i: nat :| IsFirst(list[1..], i) && list[1..][i].id !in r1.tenants && IsKey(list[1..][i], k);
      var id := list[1..][i].id;
      if id in r.tenants || id == t.id {
        TenantLosesNoKey(w, r, t, id);
      }
      hide IsFirst;
      FirstShifts(list, i);
    }
  }

  lemma OwnKeysSeparate(list: seq<Tenant>)
    requires OwnKeys(list)
    ensures Separate(set t | t in Firsts(list, {}))
  {
    FirstsAre(list, {});
    hide Firsts, SlugKept;
  }

  // A tenant of fs has the same ID and, among its keys, the same slug.
  ghost predicate HasTwin(fs: set<Tenant>, t: Tenant) {
    exists f :: f in fs && f.id == t.id && IsKey(f, t.slug)
  }

  lemma TwinOf(fs: set<Tenant>, t: Tenant, k: bytes) returns (f: Tenant)
    requires HasTwin(fs, t) && IsKey(t, k)
    ensures f in fs && f.id == t.id && IsKey(f, k) && IsKey(f, t.slug)
  {
    f :| f in fs && f.id == t.id && IsKey(f, t.slug);
  }

  lemma TwinsNotShared(r: Registry, fs: set<Tenant>, t: Tenant, u: Tenant, k: bytes, l: bytes)
    requires NoneShared(r, fs) && HasTwin(fs, t) && HasTwin(fs, u)
    requires t.id != u.id && IsKey(t, k) && IsKey(u, l) && k in r.tenants && l in r.tenants
    ensures r.tenants[k].serial != r.tenants[l].serial
  {
    var f := TwinOf(fs, t, k);
    var g := TwinOf(fs, u, l);
    hide HasTwin, IsKey;
  }

  lemma TwinRegistered(r: Registry, fs: set<Tenant>, t: Tenant, k: bytes)
    requires AllRegistered(r, fs) && NoneDefault(r, fs) && HasTwin(fs, t) && IsKey(t, k)
    ensures k in r.tenants && (DEFAULT in r.tenants ==> r.tenants[k].serial != r.tenants[DEFAULT].serial)
  {
    var f := TwinOf(fs, t, k);
    hide HasTwin, IsKey;
  }

  lemma TwinKeysAgree(r: Registry, fs: set<Tenant>, t: Tenant)
    requires AllRegistered(r, fs) && KeysAgree(r, fs) && HasTwin(fs, t)
    ensures t.id in r.tenants && t.slug in r.tenants && r.tenants[t.id] == r.tenants[t.slug]
  {
    var f := TwinOf(fs, t, t.id);
    assert IsKey(f, f.id) && IsKey(f, f.slug);
  }

  // So what holds of fs holds of any tenants with twins there.
  lemma TwinsAlike(r: Registry, fs: set<Tenant>, us: set<Tenant>)
    requires Isolated(r, fs) && AllRegistered(r, fs) && forall t :: t in us ==> HasTwin(fs, t)
    ensures Isolated(r, us) && AllRegistered(r, us)
  {
    hide IsKey, HasTwin;
    assert NoneShared(r, us) by {
      forall t, u, k, l | t in us && u in us && t.id != u.id && IsKey(t, k) && IsKey(u, l) && k in r.tenants && l in r.tenants
        ensures r.tenants[k].serial != r.tenants[l].serial
      {
        TwinsNotShared(r, fs, t, u, k, l);
      }
    }
    hide NoneShared;
    forall t, k | t in us && IsKey(t, k)
      ensures k in r.tenants && (DEFAULT in r.tenants ==> r.tenants[k].serial != r.tenants[DEFAULT].serial)
    {
      TwinRegistered(r, fs, t, k);
    }
    forall t | t in us ensures t.id in r.tenants && t.slug in r.tenants && r.tenants[t.id] == r.tenants[t.slug] {
      TwinKeysAgree(r, fs, t);
    }
  }

  // The first tenants stand for the others.
  lemma IsolatedAlike(r: Registry, list: seq<Tenant>)
    requires OwnKeys(list)
    requires var fs := set t | t in Firsts(list, {}); Isolated(r, fs) && AllRegistered(r, fs)
    ensures var us := set t | t in list; Isolated(r, us) && AllRegistered(r, us)
  {
    var fs := set t | t in Firsts(list, {});
    FirstsAre(list, {});
    hide Firsts, Isolated, AllRegistered;
    forall t | t in list ensures HasTwin(fs, t) {
      var i: nat :| IsFirst(list, i) && list[i].id == t.id && IsKey(list[i], t.slug);
      assert list[i] in fs;
    }
    TwinsAlike(r, fs, set t | t in list);
  }

  lemma IsolatedOwnsKeys(w: World, r: Registry, list: seq<Tenant>)
    requires forall k :: k in r.tenants ==> k == DEFAULT
    requires var r', us := AfterList(w, r, list).0, set t | t in list; Isolated(r', us) && AllRegistered(r', us)
    ensures OwnKeys(list)
  {
    var r', us := AfterList(w, r, list).0, set t | t in list;
    hide AfterList;
    forall t, k | t in us && IsKey(t, k) ensures k in r'.tenants && k != DEFAULT {
    }
    forall t, u, k | t in us && u in us && IsKey(t, k) && IsKey(u, k) ensures t.id == u.id {
      assert k in r'.tenants;
    }
    forall t | t in us ensures SlugKept(list, t) {
      assert IsKey(t, t.slug);
      NewKeysAre(w, r, list, t.slug);
      var i: nat :| IsFirst(list, i) && list[i].id !in r.tenants && IsKey(list[i], t.slug);
      assert list[i] in us;
    }
  }

  lemma FirstsRegister(w: World, r: Registry, fs: seq<Tenant>)
    requires var us := set t | t in fs; Separate(us) && Inv(r, us)
    requires AfterList(w, r, fs).1
    ensures var us := set t | t in fs; Isolated(AfterList(w, r, fs).0, us) && AllRegistered(AfterList(w, r, fs).0, us)
  {
    var us := set t | t in fs;
    ListKeeps(w, r, us, fs);
    hide Separate, Inv, AfterList, Isolated;
    InvIsolates(AfterList(w, r, fs).0, us);
    forall t | t in us ensures t.id in AfterList(w, r, fs).0.tenants && t.slug in AfterList(w, r, fs).0.tenants {
      ListRegisters(w, r, us, fs, t);
    }
  }

  // If every connection of an Init succeeds, its tenants are all registered and isolated exactly
  // if different IDs share no key, none is the default key, and every slug is a key of the first
  // tenant with its ID.
  lemma IsolationIff(w: World, list: seq<Tenant>)
    requires AfterInit(w, Loads(list)).1
    ensures var r, us := AfterInit(w, Loads(list)).0, set t | t in list;
            Isolated(r, us) && AllRegistered(r, us) <==> OwnKeys(list)
  {
    var r0, r, us := Started(w), AfterInit(w, Loads(list)).0, set t | t in list;
    InitIs(w, Loads(list));
    assert forall k :: k in r0.tenants ==> k == DEFAULT;
    hide AfterInit, Started, Isolated, AllRegistered, OwnKeys, Firsts, AfterList, Separate;
    if OwnKeys(list) {
      var fs := Firsts(list, {});
      FirstsSuffice(w, r0, list, {});
      OwnKeysSeparate(list);
      StartedOk(w, set t | t in fs);
      FirstsRegister(w, r0, fs);
      IsolatedAlike(r, list);
    }
    if Isolated(r, us) && AllRegistered(r, us) {
      IsolatedOwnsKeys(w, r0, list);
    }
  }

  lemma TwoTenants(w: World, r: Registry, t: Tenant, u: Tenant)
    requires AfterList(w, r, [t, u]).1
    ensures AfterTenant(w, r, t).1 && AfterTenant(w, AfterTenant(w, r, t).0, u).1
    ensures AfterList(w, r, [t, u]).0 == AfterTenant(w, AfterTenant(w, r, t).0, u).0
  {
    hide AfterTenant;
    assert [t, u][1..] == [u] && [u][1..] == [];
    var r1 := AfterTenant(w, r, t).0;
    assert AfterList(w, r1, [u]).1;
    assert AfterList(w, AfterTenant(w, r1, u).0, [][..]) == (AfterTenant(w, r1, u).0, true);
  }

  // For example: with a slug in common, the slug of the first tenant leads to the second.
  lemma SharedSlug(w: World, r: Registry, t: Tenant, u: Tenant)
    requires t.id != u.id && t.slug == u.slug && t.id != t.slug && u.id != t.slug
    requires t.id !in r.tenants && u.id !in r.tenants && AfterList(w, r, [t, u]).1
    ensures var after := AfterList(w, r, [t, u]).0.tenants;
            t.id in after && t.slug in after && after[t.id].id == t.id && after[t.slug].id == u.id
  {
    TwoTenants(w, r, t, u);
    hide TenantUrl, Configured;
  }

  // Any SQLite URL will do.
  lemma LocalConnects(w: World, r: Registry, t: Tenant)
    requires w.cfg.databaseUrl == [] && SQLITE <= t.databaseUrl && t.id !in r.tenants && w.up(r.attempts)
    ensures AfterTenant(w, r, t).1 && AfterTenant(w, r, t).0.tenants.Keys == r.tenants.Keys + {t.id, t.slug}
  {
    hide Parse;
    assert SQLITE[0] == 's' as int && POSTGRES[0] == 'p' as int && POSTGRESQL[0] == 'p' as int;
    assert !(POSTGRES <= t.databaseUrl) && !(POSTGRESQL <= t.databaseUrl) && !(POSTGRES <= []);
  }

  lemma SharedSlugInput(lib: Library)
    ensures var w := World(lib, Config([], []), _ => true);
            var a, b := Tenant(Ascii("a"), Ascii("s"), Ascii("sqlite://a")), Tenant(Ascii("b"), Ascii("s"), Ascii("sqlite://b"));
            var (r, ok) := AfterInit(w, Loads([a, b]));
            ok && a.id in r.tenants && a.slug in r.tenants && r.tenants[a.id].id == a.id && r.tenants[a.slug].id == b.id
  {
    var w := World(lib, Config([], []), _ => true);
    var a, b := Tenant(Ascii("a"), Ascii("s"), Ascii("sqlite://a")), Tenant(Ascii("b"), Ascii("s"), Ascii("sqlite://b"));
    assert Ascii("a")[0] == 'a' as int && Ascii("b")[0] == 'b' as int && Ascii("s")[0] == 's' as int;
    LocalConnects(w, EMPTY, a);
    LocalConnects(w, AfterTenant(w, EMPTY, a).0, b);
    hide AfterTenant, Ascii;
    assert [a, b][1..] == [b] && [b][1..] == [];
    assert AfterList(w, AfterTenant(w, EMPTY, a).0, [b]).1;
    SharedSlug(w, EMPTY, a, b);
  }

  // And a tenant whose ID is the slug of an earlier one is never connected.
  lemma IdIsSlug(w: World, r: Registry, t: Tenant, u: Tenant)
    requires t.slug == u.id && t.id != u.id && t.id != u.slug && u.slug != u.id
    requires t.id !in r.tenants && u.slug !in r.tenants && AfterList(w, r, [t, u]).1
    ensures var after := AfterList(w, r, [t, u]).0.tenants;
            u.id in after && after[u.id].id == t.id && u.slug !in after
  {
    TwoTenants(w, r, t, u);
    hide TenantUrl, Configured;
  }

  // ---------------------------------------------------------------- one database or schema for each tenant

  // The connection is to where some tenant with its ID is.
  ghost predicate FromTenant(w: World, us: set<Tenant>, c: Cnx) {
    exists t :: t in us && t.id == c.id && Configured(w.lib, TenantUrl(w, t)) == Some(Target(c.url, c.schema))
  }

  ghost predicate Sourced(w: World, us: set<Tenant>, r: Registry) {
    forall i :: 0 <= i < |r.established| ==> r.established[i].id == DEFAULT || FromTenant(w, us, r.established[i])
  }

  lemma TenantSources(w: World, us: set<Tenant>, r: Registry, t: Tenant)
    requires Sourced(w, us, r) && t in us
    ensures Sourced(w, us, AfterTenant(w, r, t).0)
  {
    hide Configured, TenantUrl;
  }

  lemma {:induction false} ListSources(w: World, us: set<Tenant>, r: Registry, list: seq<Tenant>)
    requires Sourced(w, us, r) && forall t :: t in list ==> t in us
    ensures Sourced(w, us, AfterList(w, r, list).0)
    decreases |list|
  {
    if list != [] {
      hide AfterTenant, Sourced;
      TenantSources(w, us, r, list[0]);
      ListSources(w, us, AfterTenant(w, r, list[0]).0, list[1..]);
    }
  }

  lemma ReloadSources(w: World, us: set<Tenant>, r: Registry, reload: Reload)
    requires Sourced(w, us, r) && Within(reload, us)
    ensures Sourced(w, us, AfterReload(w, r, reload).0)
  {
    if reload.Loads? {
      ListSources(w, us, r, reload.list);
    }
  }

  lemma {:induction false} OpsSource(w: World, us: set<Tenant>, r: Registry, ops: seq<Op>)
    requires Sourced(w, us, r) && forall i :: 0 <= i < |ops| ==> OpWithin(ops[i], us)
    ensures Sourced(w, us, AfterOps(w, r, ops))
    decreases |ops|
  {
    if ops != [] {
      assert OpWithin(ops[0], us);
      hide Sourced, AfterReload, AfterTenant;
      if ops[0].Lookup? {
        ReloadSources(w, us, r, ops[0].reload);
      } else {
        TenantSources(w, us, r, ops[0].tenant);
      }
      OpsSource(w, us, AfterOp(w, r, ops[0]), ops[1..]);
    }
  }

  lemma StartedSourced(w: World, us: set<Tenant>)
    ensures Sourced(w, us, Started(w))
  {
    hide Configured;
  }

  lemma HistorySources(w: World, us: set<Tenant>, reload: Reload, ops: seq<Op>)
    requires Within(reload, us) && AfterInit(w, reload).1
    requires forall i :: 0 <= i < |ops| ==> OpWithin(ops[i], us)
    ensures Sourced(w, us, AfterOps(w, AfterInit(w, reload).0, ops))
  {
    hide AfterInit, AfterReload, AfterOps, Started, Sourced, Within, OpWithin;
    InitIs(w, reload);
    StartedSourced(w, us);
    ReloadSources(w, us, Started(w), reload);
    OpsSource(w, us, AfterInit(w, reload).0, ops);
  }

  lemma OwnConnection(w: World, us: set<Tenant>, r: Registry, t: Tenant, k: bytes)
    requires Separate(us) && Inv(r, us) && Sourced(w, us, r) && t in us && IsKey(t, k) && k in r.tenants
    ensures r.tenants[k].id == t.id && FromTenant(w, us, r.tenants[k])
  {
    KeyIsOwn(r, us, t, k);
    assert EntryOk(r, us, k);
    hide Separate, FromTenant;
    var i :| 0 <= i < |r.established| && r.established[i] == r.tenants[k];
  }

  // In every history each key of a tenant leads to a connection to where some tenant with that ID is.
  lemma KeysLeadHome(w: World, us: set<Tenant>, reload: Reload, ops: seq<Op>, t: Tenant, k: bytes)
    requires Separate(us) && Within(reload, us) && AfterInit(w, reload).1
    requires forall i :: 0 <= i < |ops| ==> OpWithin(ops[i], us)
    requires t in us && IsKey(t, k)
    ensures var r := AfterOps(w, AfterInit(w, reload).0, ops);
            k in r.tenants ==> r.tenants[k].id == t.id && FromTenant(w, us, r.tenants[k])
  {
    var r0 := AfterInit(w, reload).0;
    hide AfterInit, AfterOps, Inv, Separate, Sourced, Within, OpWithin, IsKey, FromTenant, Extends;
    InitEstablishes(w, us, reload);
    OpsKeep(w, r0, us, ops);
    HistorySources(w, us, reload, ops);
    if k in AfterOps(w, r0, ops).tenants {
      OwnConnection(w, us, AfterOps(w, r0, ops), t, k);
    }
  }

  // The schema strategy applies to PostgreSQL URLs of the first kind only.
  predicate SchemaStrategy(cfg: Config) {
    cfg.strategy == STRATEGY_SCHEMA && BeginsWith(cfg.databaseUrl, "postgres://")
  }

  lemma TenantUrlIs(w: World, t: Tenant)
    ensures TenantUrl(w, t) == if SchemaStrategy(w.cfg) then AppendParamToUrl(w.lib, w.cfg.databaseUrl, SCHEMA, t.id) else t.databaseUrl
  {
    PrefixIs(w.cfg.databaseUrl, "postgres://");
    hide AppendParamToUrl, BeginsWith;
  }

  // The default key and the name of the strategy.
  lemma NamesAre()
    ensures |DEFAULT| == 7 && BeginsWith(DEFAULT, "default")
    ensures |STRATEGY_SCHEMA| == 6 && BeginsWith(STRATEGY_SCHEMA, "schema")
  {
    PrefixIs(DEFAULT, "default");
    PrefixIs(STRATEGY_SCHEMA, "schema");
  }

  // Database URLs are functions of the IDs.
  ghost predicate UrlsStable(us: set<Tenant>) {
    forall t, u :: t in us && u in us && t.id == u.id ==> t.databaseUrl == u.databaseUrl
  }

  // Without the schema strategy that is the tenant's own database, taken as it is if it is a local one.
  lemma TenantsHaveOwnDatabase(w: World, us: set<Tenant>, reload: Reload, ops: seq<Op>, t: Tenant, k: bytes)
    requires !SchemaStrategy(w.cfg) && UrlsStable(us)
    requires Separate(us) && Within(reload, us) && AfterInit(w, reload).1
    requires forall i :: 0 <= i < |ops| ==> OpWithin(ops[i], us)
    requires t in us && IsKey(t, k)
    ensures var r := AfterOps(w, AfterInit(w, reload).0, ops);
            k in r.tenants ==>
              && Configured(w.lib, t.databaseUrl) == Some(Target(r.tenants[k].url, r.tenants[k].schema))
              && (NamesLocal(t.databaseUrl) ==> r.tenants[k].url == t.databaseUrl && r.tenants[k].schema == [])
  {
    var r := AfterOps(w, AfterInit(w, reload).0, ops);
    KeysLeadHome(w, us, reload, ops, t, k);
    Schemes(t.databaseUrl);
    hide AfterInit, AfterOps, Separate, Within, OpWithin, IsKey, Configured, SchemaStrategy, NamesLocal, NamesPostgres;
    LocalUrl(w, t);
    if k in r.tenants {
      var u :| u in us && u.id == r.tenants[k].id && Configured(w.lib, TenantUrl(w, u)) == Some(Target(r.tenants[k].url, r.tenants[k].schema));
      TenantUrlIs(w, u);
    }
  }

  lemma LocalUrl(w: World, t: Tenant)
    ensures NamesLocal(t.databaseUrl) ==> Configured(w.lib, t.databaseUrl) == Some(Target(t.databaseUrl, []))
  {
    Schemes(t.databaseUrl);
    if NamesLocal(t.databaseUrl) {
      LocalConfigured(w.lib, t.databaseUrl);
    }
    hide Configured, NamesLocal, NamesPostgres;
  }

  // The schema strategy, with a URL that the library prints as one of PostgreSQL again.
  ghost predicate BySchema(w: World) {
    && SchemaStrategy(w.cfg) && Laws(w.lib)
    && Parse(w.lib, w.cfg.databaseUrl).Some? && IsPostgres(Parse(w.lib, w.cfg.databaseUrl).value.base)
  }

  // The tenant's ID gets through as the schema.
  ghost predicate Routed(w: World, id: bytes) {
    WholeQuery(w.lib, w.cfg.databaseUrl) && RoutableId(id)
  }

  // Under the schema strategy, in every history, each key of a tenant leads to a connection
  // confined to the schema named by the tenant's ID exactly if that ID gets through, and then to
  // the common database.
  lemma TenantsHaveOwnSchema(w: World, us: set<Tenant>, reload: Reload, ops: seq<Op>, t: Tenant, k: bytes)
    requires BySchema(w) && Separate(us) && Within(reload, us) && AfterInit(w, reload).1
    requires forall i :: 0 <= i < |ops| ==> OpWithin(ops[i], us)
    requires t in us && IsKey(t, k) && t.id != []
    ensures var r := AfterOps(w, AfterInit(w, reload).0, ops);
            k in r.tenants ==>
              && (r.tenants[k].schema == t.id <==> Routed(w, t.id))
              && (Routed(w, t.id) ==>
                    r.tenants[k].url == Print(Without(Parse(w.lib, w.cfg.databaseUrl).value, SCHEMA).(force := false)))
  {
    var r := AfterOps(w, AfterInit(w, reload).0, ops);
    KeysLeadHome(w, us, reload, ops, t, k);
    hide AfterInit, AfterOps, Separate, Within, OpWithin, IsKey, Configured, SchemaStrategy, Print, Without, Parse, Laws, IsPostgres, RoutableId;
    SchemaRoutedIff(w.lib, w.cfg.databaseUrl, t.id);
    if Routed(w, t.id) {
      SchemaRoundTrip(w.lib, w.cfg.databaseUrl, t.id);
    }
    if k in r.tenants {
      var u :| u in us && u.id == r.tenants[k].id && Configured(w.lib, TenantUrl(w, u)) == Some(Target(r.tenants[k].url, r.tenants[k].schema));
      TenantUrlIs(w, u);
    }
  }

  // ---------------------------------------------------------------- when loading and Init go through

  lemma TenantGoesThrough(w: World, r: Registry, t: Tenant)
    ensures AfterTenant(w, r, t).1 <==> t.id in AfterTenant(w, r, t).0.tenants
  {
    hide Attempt, TenantUrl;
  }

  lemma {:induction false} ListLosesNoKey(w: World, r: Registry, list: seq<Tenant>, k: bytes)
    requires k in r.tenants
    ensures k in AfterList(w, r, list).0.tenants
    decreases |list|
  {
    if list != [] {
      hide AfterTenant;
      TenantLosesNoKey(w, r, list[0], k);
      ListLosesNoKey(w, AfterTenant(w, r, list[0]).0, list[1..], k);
    }
  }

  // A load goes through exactly if every tenant on the list is registered afterwards.
  lemma {:induction false} ListGoesThroughIff(w: World, r: Registry, list: seq<Tenant>)
    ensures AfterList(w, r, list).1 <==> forall t :: t in list ==> t.id in AfterList(w, r, list).0.tenants
    decreases |list|
  {
    if list != [] {
      var t, rest := list[0], list[1..];
      var (r1, ok) := AfterTenant(w, r, t);
      TenantGoesThrough(w, r, t);
      assert list == [t] + rest;
      assert AfterList(w, r, list) == if ok then AfterList(w, r1, rest) else (r1, false);
      hide AfterTenant, AfterList;
      if ok {
        ListGoesThroughIff(w, r1, rest);
        ListLosesNoKey(w, r1, rest, t.id);
      } else {
        assert t in list;
      }
    }
  }

  // Without a provider there is nothing to load, and a provider that fails is an error.
  lemma ReloadGoesThroughIff(w: World, r: Registry, reload: Reload)
    ensures AfterReload(w, r, reload).1 <==>
              match reload
              case NoProvider => true
              case LoadFails => false
              case Loads(list) => forall t :: t in list ==> t.id in AfterReload(w, r, reload).0.tenants
  {
    if reload.Loads? {
      ListGoesThroughIff(w, r, reload.list);
    }
  }

  ghost predicate AllUp(w: World) {
    forall n :: w.up(n)
  }

  // The URL made for a tenant is accepted.
  ghost predicate Accepted(w: World, t: Tenant) {
    Configured(w.lib, TenantUrl(w, t)).Some?
  }

  lemma {:induction false} ListSucceeds(w: World, r: Registry, list: seq<Tenant>)
    requires AllUp(w) && forall t :: t in list ==> Accepted(w, t)
    ensures AfterList(w, r, list).1
    decreases |list|
  {
    if list != [] {
      var (r1, ok) := AfterTenant(w, r, list[0]);
      assert Accepted(w, list[0]) && w.up(r.attempts);
      hide Configured, TenantUrl;
      assert ok;
      hide AfterTenant, Attempt;
      ListSucceeds(w, r1, list[1..]);
    }
  }

  lemma ListAccepted(w: World, us: set<Tenant>, r: Registry, list: seq<Tenant>, t: Tenant)
    requires Separate(us) && Inv(r, us) && Sourced(w, us, r) && (forall u :: u in list ==> u in us) && t in list
    requires forall u :: u in us && u.id == t.id ==> TenantUrl(w, u) == TenantUrl(w, t)
    requires AfterList(w, r, list).1
    ensures Accepted(w, t)
  {
    hide Inv, Separate, Sourced, AfterList, Configured, TenantUrl, FromTenant;
    var r' := AfterList(w, r, list).0;
    ListRegisters(w, r, us, list, t);
    ListKeeps(w, r, us, list);
    ListSources(w, us, r, list);
    assert IsKey(t, t.id);
    OwnConnection(w, us, r', t, t.id);
    HomeOf(w, us, r'.tenants[t.id]);
  }

  lemma HomeOf(w: World, us: set<Tenant>, c: Cnx)
    requires FromTenant(w, us, c)
    ensures exists t :: t in us && t.id == c.id && Accepted(w, t)
  {
    hide Configured, TenantUrl;
    var t :| t in us && t.id == c.id && Configured(w.lib, TenantUrl(w, t)) == Some(Target(c.url, c.schema));
    assert Accepted(w, t);
  }

  lemma DefaultConnects(w: World)
    requires AllUp(w) && w.cfg.databaseUrl != []
    ensures Attempt(w, 0, DEFAULT, w.cfg.databaseUrl).Some? <==> Configured(w.lib, w.cfg.databaseUrl).Some?
  {
    assert w.up(0);
    hide Configured;
  }

  lemma InitStops(w: World, reload: Reload)
    requires w.cfg.databaseUrl != [] && Attempt(w, 0, DEFAULT, w.cfg.databaseUrl).None?
    ensures !AfterInit(w, reload).1
  {
    hide Configured, AfterReload;
  }

  lemma StartedIff(w: World, reload: Reload)
    requires AllUp(w)
    ensures AfterInit(w, reload).1 <==>
              (w.cfg.databaseUrl == [] || Configured(w.lib, w.cfg.databaseUrl).Some?) && AfterReload(w, Started(w), reload).1
  {
    hide AfterInit, AfterReload, Attempt, Started, Configured, AllUp;
    if w.cfg.databaseUrl != [] {
      DefaultConnects(w);
    }
    if w.cfg.databaseUrl != [] && Attempt(w, 0, DEFAULT, w.cfg.databaseUrl).None? {
      InitStops(w, reload);
    } else {
      InitContinues(w, reload);
    }
  }

  // When every attempt reaches its database, an Init succeeds exactly if the default URL, if there
  // is one, and the URL made for each tenant are accepted.
  lemma InitSucceedsIff(w: World, list: seq<Tenant>)
    requires AllUp(w) && Separate(set t | t in list)
    requires forall t, u :: t in list && u in list && t.id == u.id ==> TenantUrl(w, t) == TenantUrl(w, u)
    ensures AfterInit(w, Loads(list)).1 <==>
              && (w.cfg.databaseUrl == [] || Configured(w.lib, w.cfg.databaseUrl).Some?)
              && forall t :: t in list ==> Accepted(w, t)
  {
    var us := set t | t in list;
    StartedIff(w, Loads(list));
    StartedOk(w, us);
    StartedSourced(w, us);
    hide AfterInit, Started, Separate, Inv, Sourced, AfterList, Configured, TenantUrl, Accepted, AllUp;
    if AfterList(w, Started(w), list).1 {
      forall t | t in list ensures Accepted(w, t) {
        ListAccepted(w, us, Started(w), list, t);
      }
    }
    if forall t :: t in list ==> Accepted(w, t) {
      ListSucceeds(w, Started(w), list);
    }
  }

  lemma SchemaAccepted(w: World, t: Tenant)
    requires BySchema(w) && WholeQuery(w.lib, w.cfg.databaseUrl) && PlainText(t.id)
    ensures Accepted(w, t)
  {
    TenantUrlIs(w, t);
    SchemaIsPlain();
    hide SchemaStrategy, TenantUrl, Parse, AppendParamToUrl, Laws, IsPostgres, Ascii, NoControl, NamesPostgres;
    AppendedIsPostgres(w.lib, w.cfg.databaseUrl, t.id);
    AppendBinds(w.lib, w.cfg.databaseUrl, SCHEMA, t.id);
    var url := AppendParamToUrl(w.lib, w.cfg.databaseUrl, SCHEMA, t.id);
    Schemes(url);
    PostgresAccepted(w.lib, url);
  }

  // So under the schema strategy, with a URL without a fragment and IDs without "#" and control characters.
  lemma SchemaInitSucceeds(w: World, list: seq<Tenant>)
    requires BySchema(w) && AllUp(w) && WholeQuery(w.lib, w.cfg.databaseUrl)
    requires forall t :: t in list ==> PlainText(t.id)
    ensures AfterInit(w, Loads(list)).1
  {
    StartedIff(w, Loads(list));
    DefaultAccepted(w);
    hide AfterInit, Started, AfterList, Configured, TenantUrl, Accepted, AllUp, BySchema, PlainText, WholeQuery;
    forall t | t in list ensures Accepted(w, t) {
      SchemaAccepted(w, t);
    }
    ListSucceeds(w, Started(w), list);
  }

  lemma DefaultAccepted(w: World)
    requires BySchema(w)
    ensures Configured(w.lib, w.cfg.databaseUrl).Some?
  {
    var url := w.cfg.databaseUrl;
    hide Parse, IsPostgres, Laws;
    PostgresAccepted(w.lib, url);
  }

  // ---------------------------------------------------------------- an answer once given

  lemma AnswerIs(w: World, r: Registry, k: bytes, reload: Reload)
    ensures var (r', answer) := AfterLookup(w, r, k, reload);
            match answer
            case Found(c) => EntryOf(r', k) == Some(c)
            case Nil => EntryOf(r', k) == None && AfterReload(w, r, reload).1
            case Panicked => EntryOf(r, k) == None && !AfterReload(w, r, reload).1
  {
    hide AfterReload;
  }

  // Once a key has been answered with a connection it always is, without loading anything.
  lemma FoundForever(w: World, us: set<Tenant>, r: Registry, ops: seq<Op>, k: bytes, first: Reload, later: Reload, c: Cnx)
    requires Separate(us) && Inv(r, us) && Within(first, us) && forall i :: 0 <= i < |ops| ==> OpWithin(ops[i], us)
    requires AfterLookup(w, r, k, first).1 == Found(c)
    ensures var r' := AfterOps(w, AfterLookup(w, r, k, first).0, ops); AfterLookup(w, r', k, later) == (r', Found(c))
  {
    var r1 := AfterLookup(w, r, k, first).0;
    AnswerIs(w, r, k, first);
    LookupKeeps(w, r, us, k, first);
    hide Separate, Inv, AfterReload, Extends, OpWithin, Within, AfterOps, AfterLookup;
    OpsKeep(w, r1, us, ops);
    ExtendsKeeps(r1, AfterOps(w, r1, ops), k);
    KnownKey(w, AfterOps(w, r1, ops), k, later);
  }

  lemma KnownKey(w: World, r: Registry, k: bytes, reload: Reload)
    requires k in r.tenants
    ensures AfterLookup(w, r, k, reload) == (r, Found(r.tenants[k]))
  {
  }

  lemma LookupKeeps(w: World, r: Registry, us: set<Tenant>, k: bytes, reload: Reload)
    requires Separate(us) && Inv(r, us) && Within(reload, us)
    ensures Inv(AfterLookup(w, r, k, reload).0, us)
  {
    ReloadKeeps(w, r, us, reload);
    hide Separate, Inv, AfterReload, Extends, Within;
  }

  // So it is after every history.
  lemma AnswersLast(w: World, us: set<Tenant>, reload: Reload, before: seq<Op>, k: bytes, first: Reload, after: seq<Op>, later: Reload, c: Cnx)
    requires Separate(us) && Within(reload, us) && AfterInit(w, reload).1 && Within(first, us)
    requires (forall i :: 0 <= i < |before| ==> OpWithin(before[i], us)) && forall i :: 0 <= i < |after| ==> OpWithin(after[i], us)
    requires AfterLookup(w, AfterOps(w, AfterInit(w, reload).0, before), k, first).1 == Found(c)
    ensures var r := AfterOps(w, AfterLookup(w, AfterOps(w, AfterInit(w, reload).0, before), k, first).0, after);
            AfterLookup(w, r, k, later) == (r, Found(c))
  {
    hide Separate, Inv, AfterInit, AfterOps, AfterLookup, Within, OpWithin, Extends;
    InitEstablishes(w, us, reload);
    OpsKeep(w, AfterInit(w, reload).0, us, before);
    FoundForever(w, us, AfterOps(w, AfterInit(w, reload).0, before), after, k, first, later, c);
  }

  // ---------------------------------------------------------------- what a tenant's key is answered with

  // After every history, a key of a tenant is answered with a connection to where a tenant with
  // its ID is, or with nil if the tenant is not on the list loaded, or with a panic if loading fails.
  lemma TenantAnswers(w: World, us: set<Tenant>, reload: Reload, ops: seq<Op>, t: Tenant, k: bytes, last: Reload)
    requires Separate(us) && Within(reload, us) && AfterInit(w, reload).1 && Within(last, us)
    requires forall i :: 0 <= i < |ops| ==> OpWithin(ops[i], us)
    requires t in us && IsKey(t, k)
    ensures var r := AfterOps(w, AfterInit(w, reload).0, ops);
            match AfterLookup(w, r, k, last).1
            case Found(c) => c.id == t.id && FromTenant(w, us, c)
            case Nil => last.NoProvider? || (last.Loads? && t !in last.list)
            case Panicked => !AfterReload(w, r, last).1
  {
    var r0 := AfterInit(w, reload).0;
    var r := AfterOps(w, r0, ops);
    hide AfterInit, AfterReload, AfterLookup, AfterOps, Separate, Within, OpWithin, IsKey, FromTenant;
    AnswerIs(w, r, k, last);
    LookupFails(w, r, last);
    if last.Loads? && AfterLookup(w, r, k, last).1 == Nil {
      NilIsForUnlisted(w, us, reload, ops, k, last.list);
    }
    var all := ops + [Lookup(k, last)];
    LookupIsOp(w, r0, ops, k, last);
    LookupWithin(us, k, last);
    assert forall i :: 0 <= i < |all| ==> OpWithin(all[i], us);
    KeysLeadHome(w, us, reload, all, t, k);
  }

  lemma LookupWithin(us: set<Tenant>, k: bytes, reload: Reload)
    requires Within(reload, us)
    ensures OpWithin(Lookup(k, reload), us)
  {
  }

  lemma LookupFails(w: World, r: Registry, reload: Reload)
    ensures reload.LoadFails? ==> !AfterReload(w, r, reload).1
  {
  }

  lemma {:induction false} LookupIsOp(w: World, r: Registry, ops: seq<Op>, k: bytes, last: Reload)
    ensures AfterOps(w, r, ops + [Lookup(k, last)]) == AfterLookup(w, AfterOps(w, r, ops), k, last).0
    decreases |ops|
  {
    var all := ops + [Lookup(k, last)];
    hide AfterLookup, AfterTenant;
    if ops == [] {
      assert all[1..] == [];
    } else {
      assert all[0] == ops[0] && all[1..] == ops[1..] + [Lookup(k, last)];
      LookupIsOp(w, AfterOp(w, r, ops[0]), ops[1..], k, last);
    }
  }
}
