/** The subscription ledger of the xDS server: internal/xds/server.go and internal/xds/subauth.go. */
module XdsLedger {
  import opened Names

  /** The six resource caches; a request may also name a type that has none. */
  datatype Cache = Policy | Revocation | Swg | Site | Firewall | Dlp

  datatype TypeURL = Of(cache: Cache) | Other(url: Name)

  const CACHES: seq<Cache> := [Policy, Revocation, Swg, Site, Firewall, Dlp]

  datatype Role = PoP | Device | NoRole

  /** One delta stream: its certificate identity, the tenants it subscribed to and the types it named. */
  datatype Auth = Auth(role: Role, certTenant: Name, hasCert: bool, tenants: set<Name>, named: set<TypeURL>)

  /** A stream that was never opened counts as one without a certificate. */
  const UNOPENED := Auth(NoRole, "", false, {}, {})

  datatype Ledger = Ledger(streams: map<int, Auth>, refs: map<Name, int>, caches: set<(Cache, Name)>, strict: bool)

  const PREFIX: Name := "tenant/"

  function ResourceName(tenant: Name): Name {
    PREFIX + tenant
  }

  /** tenantFromName, "" for any other name. */
  function TenantFromName(name: Name): Name {
    if |name| > |PREFIX| && name[..|PREFIX|] == PREFIX then name[|PREFIX|..] else ""
  }

  /** A name stands for a tenant exactly when it was made from it; the wildcard stands for none. */
  lemma TenantNames(name: Name, tenant: Name)
    requires tenant != ""
    ensures TenantFromName(name) == tenant <==> name == ResourceName(tenant)
    ensures TenantFromName("*") == "" && TenantFromName("") == ""
  {
    if TenantFromName(name) == tenant {
      assert name == name[..|PREFIX|] + name[|PREFIX|..];
    }
  }

  /** authorizeSubscription. */
  predicate Authorize(a: Auth, tenant: Name, strict: bool) {
    match a.role
    case PoP => true
    case Device => a.certTenant != "" && a.certTenant == tenant
    case NoRole => !strict
  }

  function AuthFor(l: Ledger, id: int): Auth {
    if id in l.streams then l.streams[id] else UNOPENED
  }

  function Open(l: Ledger, id: int, role: Role, certTenant: Name, hasCert: bool): Ledger {
    l.(streams := l.streams[id := Auth(role, certTenant, hasCert, {}, {})])
  }

  function RefsAfterClose(refs: map<Name, int>, tenants: set<Name>): map<Name, int> {
    map t | t in refs && !(t in tenants && refs[t] <= 1) :: if t in tenants then refs[t] - 1 else refs[t]
  }

  function Evicted(refs: map<Name, int>, tenants: set<Name>): set<Name> {
    set t | t in tenants && !(t in refs && refs[t] > 1)
  }

  function Evict(caches: set<(Cache, Name)>, tenants: set<Name>): set<(Cache, Name)> {
    set c | c in caches && c.1 !in tenants
  }

  /** onDeltaStreamClosed. */
  function Close(l: Ledger, id: int): Ledger {
    if id !in l.streams then l else
    var tenants := l.streams[id].tenants;
    Ledger(l.streams - {id}, RefsAfterClose(l.refs, tenants), Evict(l.caches, Evicted(l.refs, tenants)), l.strict)
  }

  /** recordRef. */
  function Record(l: Ledger, id: int, tenant: Name, ty: TypeURL): (l': Ledger)
    requires id in l.streams
    ensures id in l'.streams
  {
    var a := l.streams[id];
    l.(streams := l.streams[id := a.(named := a.named + {ty}, tenants := a.tenants + {tenant})],
       refs := if tenant in a.tenants then l.refs
               else l.refs[tenant := (if tenant in l.refs then l.refs[tenant] else 0) + 1])
  }

  /** A read of the tenant's resource of one type; `loaded` is whether the database gave one. */
  function Load(caches: set<(Cache, Name)>, ty: TypeURL, tenant: Name, loaded: bool): set<(Cache, Name)> {
    if ty.Of? && loaded then caches + {(ty.cache, tenant)} else caches
  }

  /** The locked part of one name of a request: the new ledger and whether the subscription was granted. */
  function Grant(l: Ledger, id: int, ty: TypeURL, name: Name): (r: (Ledger, bool))
    requires id in l.streams
    ensures id in r.0.streams
  {
    var tenant := TenantFromName(name);
    if tenant == "" || !Authorize(l.streams[id], tenant, l.strict) then (l, false)
    else (Record(l, id, tenant, ty), true)
  }

  /** One name of a request with the load that follows a grant. */
  function Subscribe(l: Ledger, id: int, ty: TypeURL, name: Name, loaded: bool): (r: (Ledger, bool))
    requires id in l.streams
    ensures id in r.0.streams
  {
    var (l', ok) := Grant(l, id, ty, name);
    if ok then (l'.(caches := Load(l'.caches, ty, TenantFromName(name), loaded)), true) else (l', false)
  }

  function Ensure(l: Ledger, id: int): (l': Ledger)
    ensures id in l'.streams
  {
    l.(streams := l.streams[id := AuthFor(l, id)])
  }

  /** The names of a request one after the other, up to the first refusal. */
  function SubscribeAll(l: Ledger, id: int, ty: TypeURL, names: seq<Name>, loaded: seq<bool>): (Ledger, bool)
    requires id in l.streams && |loaded| == |names|
    decreases |names|
  {
    if names == [] then (l, true) else
    var (l', ok) := Subscribe(l, id, ty, names[0], loaded[0]);
    if !ok then (l', false) else SubscribeAll(l', id, ty, names[1..], loaded[1..])
  }

  /** onDeltaRequest: a request without names is an acknowledgement, allowed for a type this stream has named. */
  function Request(l: Ledger, id: int, ty: TypeURL, names: seq<Name>, loaded: seq<bool>): (Ledger, bool)
    requires |loaded| == |names|
  {
    var l' := Ensure(l, id);
    if names == [] then (l', ty in l'.streams[id].named) else SubscribeAll(l', id, ty, names, loaded)
  }

  lemma InCaches(c: Cache)
    ensures c in CACHES[..|CACHES|]
  {
    match c
    case Policy => assert CACHES[0] == c;
    case Revocation => assert CACHES[1] == c;
    case Swg => assert CACHES[2] == c;
    case Site => assert CACHES[3] == c;
    case Firewall => assert CACHES[4] == c;
    case Dlp => assert CACHES[5] == c;
  }

  lemma CloseOne(refs: map<Name, int>, caches: set<(Cache, Name)>, done: set<Name>, t: Name)
    requires t !in done
    ensures var r := RefsAfterClose(refs, done);
      var n := (if t in r then r[t] else 0) - 1;
      && RefsAfterClose(refs, done + {t}) == (if n <= 0 then r - {t} else r[t := n])
      && Evict(caches, Evicted(refs, done + {t}))
         == if n <= 0 then Evict(Evict(caches, Evicted(refs, done)), {t}) else Evict(caches, Evicted(refs, done))
  {
    var r := RefsAfterClose(refs, done);
    var n := (if t in r then r[t] else 0) - 1;
    assert Evicted(refs, done + {t}) == Evicted(refs, done) + if n <= 0 then {t} else {};
  }

  class Server {
    var streams: map<int, Auth>
    var tenantRefs: map<Name, int>
    var caches: set<(Cache, Name)>
    const strict: bool

    constructor (strict: bool)
      ensures Abs() == Ledger(map[], map[], {}, strict)
    {
      streams, tenantRefs, caches, this.strict := map[], map[], {}, strict;
    }

    function Abs(): Ledger
      reads this
    {
      Ledger(streams, tenantRefs, caches, strict)
    }

    method OnStreamOpen(id: int, role: Role, certTenant: Name, hasCert: bool)
      modifies this
      ensures Abs() == Open(old(Abs()), id, role, certTenant, hasCert)
    {
      streams := streams[id := Auth(role, certTenant, hasCert, {}, {})];
    }

    /** evictTenant: out of all six caches. */
    method EvictTenant(tenant: Name)
      modifies this`caches
      ensures caches == Evict(old(caches), {tenant})
    {
      for i := 0 to |CACHES|
        invariant caches == set c | c in old(caches) && !(c.1 == tenant && c.0 in CACHES[..i])
      {
        assert CACHES[..i + 1] == CACHES[..i] + [CACHES[i]];
        caches := caches - {(CACHES[i], tenant)};
      }
      assert forall c: Cache :: c in CACHES[..|CACHES|] by {
        forall c: Cache ensures c in CACHES[..|CACHES|] {
          InCaches(c);
        }
      }
    }

    method OnStreamClosed(id: int)
      modifies this
      ensures Abs() == Close(old(Abs()), id)
    {
      if id !in streams {
        return;
      }
      var tenants := streams[id].tenants;
      streams := streams - {id};
      var left := tenants;
      while left != {}
        invariant left <= tenants && streams == old(streams) - {id}
        invariant tenantRefs == RefsAfterClose(old(tenantRefs), tenants - left)
        invariant caches == Evict(old(caches), Evicted(old(tenantRefs), tenants - left))
        decreases left
      {
        var t :| t in left;
        CloseOne(old(tenantRefs), old(caches), tenants - left, t);
        assert tenants - (left - {t}) == tenants - left + {t};
        var n := (if t in tenantRefs then tenantRefs[t] else 0) - 1;
        if n <= 0 {
          tenantRefs := tenantRefs - {t};
          EvictTenant(t);
        } else {
          tenantRefs := tenantRefs[t := n];
        }
        left := left - {t};
      }
      assert tenants - {} == tenants;
    }

    /** authFor: makes an identity for a stream that was never opened. */
    method EnsureAuth(id: int) returns (a: Auth)
      modifies this`streams
      ensures Abs() == Ensure(old(Abs()), id) && a == streams[id]
    {
      if id in streams {
        a := streams[id];
        assert streams[id := a] == streams;
      } else {
        a := UNOPENED;
        streams := streams[id := a];
      }
    }

    method RecordRef(id: int, tenant: Name, ty: TypeURL)
      requires id in streams
      modifies this
      ensures Abs() == Record(old(Abs()), id, tenant, ty)
    {
      var a := streams[id];
      a := a.(named := a.named + {ty});
      if tenant !in a.tenants {
        a := a.(tenants := a.tenants + {tenant});
        tenantRefs := tenantRefs[tenant := (if tenant in tenantRefs then tenantRefs[tenant] else 0) + 1];
      }
      assert old(streams)[id].tenants + {tenant} == a.tenants;
      streams := streams[id := a];
    }

    method LoadResource(ty: TypeURL, tenant: Name, loaded: bool)
      modifies this`caches
      ensures caches == Load(old(caches), ty, tenant, loaded)
    {
      if ty.Of? && loaded {
        caches := caches + {(ty.cache, tenant)};
      }
    }

    /** onDeltaRequest; `loaded` says for each name whether the database gives a resource. */
    method OnRequest(id: int, ty: TypeURL, names: seq<Name>, loaded: seq<bool>) returns (ok: bool)
      requires |loaded| == |names|
      modifies this
      ensures (Abs(), ok) == Request(old(Abs()), id, ty, names, loaded)
    {
      hide TenantFromName, Authorize, Record, Load;
      var a := EnsureAuth(id);
      if |names| == 0 {
        return ty in a.named;
      }
      ghost var start := Abs();
      for i := 0 to |names|
        invariant id in streams
        invariant SubscribeAll(Abs(), id, ty, names[i..], loaded[i..]) == SubscribeAll(start, id, ty, names, loaded)
      {
        assert names[i..][1..] == names[i + 1..] && loaded[i..][1..] == loaded[i + 1..];
        var tenant := TenantFromName(names[i]);
        if tenant == "" {
          return false;
        }
        if !Authorize(streams[id], tenant, strict) {
          return false;
        }
        RecordRef(id, tenant, ty);
        LoadResource(ty, tenant, loaded[i]);
      }
      ok := true;
    }

    /** All six resources of one tenant. */
    method ReloadTenant(tenant: Name, found: set<(Cache, Name)>)
      modifies this`caches
      ensures caches == old(caches) + set c | c in found && c.1 == tenant
    {
      for i := 0 to |CACHES|
        invariant caches == old(caches) + set c | c in found && c.1 == tenant && c.0 in CACHES[..i]
      {
        assert CACHES[..i + 1] == CACHES[..i] + [CACHES[i]];
        LoadResource(Of(CACHES[i]), tenant, (CACHES[i], tenant) in found);
      }
      forall c: Cache ensures c in CACHES[..|CACHES|] {
        InCaches(c);
      }
    }

    /** The locked part of ReconcileAll: the tenants that have a subscriber now. */
    method SnapshotTenants() returns (tenants: set<Name>)
      ensures tenants == tenantRefs.Keys
    {
      tenants := tenantRefs.Keys;
    }

    /** The rest of ReconcileAll, without the lock: whatever the references have become, the snapshot is reloaded. */
    method ReloadAll(tenants: set<Name>, found: set<(Cache, Name)>)
      modifies this`caches
      ensures caches == old(caches) + set c | c in found && c.1 in tenants
    {
      var left := tenants;
      while left != {}
        invariant left <= tenants
        invariant caches == old(caches) + set c | c in found && c.1 in tenants && c.1 !in left
        decreases left
      {
        var t :| t in left;
        ReloadTenant(t, found);
        left := left - {t};
      }
    }

    /** ReconcileAll when nothing else runs; `found` is what the database has. */
    method ReconcileAll(found: set<(Cache, Name)>)
      modifies this`caches
      ensures caches == old(caches) + set c | c in found && c.1 in tenantRefs
    {
      var tenants := SnapshotTenants();
      ReloadAll(tenants, found);
    }
  }
}
