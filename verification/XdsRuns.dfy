/** Whole runs of the xDS subscription ledger, the steps of all streams interleaved name by name. */
module XdsRuns {
  import opened Names
  import opened XdsLedger

  /**
   * The ledger and the tenants each reconciliation has noted. A stream counts as open until its references are
   * released; its own requests come one after the other and before that.
   */
  datatype World = World(l: Ledger, rounds: seq<set<Name>>)

  datatype Event =
    | OpenStream(id: int, role: Role, certTenant: Name, hasCert: bool)
    | SubscribeName(id: int, ty: TypeURL, name: Name)
    | SubscribeLoad(id: int, cache: Cache, tenant: Name)
    | Empty(id: int, ty: TypeURL)
    | CloseStream(id: int)
    | Notify(cache: Cache, tenant: Name)
    | ReconcileBegin
    | ReconcileLoad(round: nat, cache: Cache, tenant: Name)

  /**
   * The resource a load that finds one in the database puts into its cache: after a grant while the stream is open,
   * on a notification, or for a tenant the round has noted.
   */
  function Puts(w: World, ev: Event): set<(Cache, Name)> {
    match ev
    case SubscribeLoad(id, cache, tenant) =>
      if id in w.l.streams && tenant in w.l.streams[id].tenants then {(cache, tenant)} else {}
    case Notify(cache, tenant) => {(cache, tenant)}
    case ReconcileLoad(round, cache, tenant) =>
      if round < |w.rounds| && tenant in w.rounds[round] then {(cache, tenant)} else {}
    case _ => {}
  }

  function StepLedger(l: Ledger, ev: Event): Ledger {
    match ev
    case OpenStream(id, role, certTenant, hasCert) => Open(l, id, role, certTenant, hasCert)
    case SubscribeName(id, ty, name) => Grant(Ensure(l, id), id, ty, name).0
    case Empty(id, ty) => Ensure(l, id)
    case CloseStream(id) => Close(l, id)
    case _ => l
  }

  function Step(w: World, ev: Event): World {
    var l := StepLedger(w.l, ev);
    World(l.(caches := l.caches + Puts(w, ev)),
          if ev.ReconcileBegin? then w.rounds + [w.l.refs.Keys] else w.rounds)
  }

  function RunWorld(strict: bool, es: seq<Event>): World {
    if es == [] then World(Ledger(map[], map[], {}, strict), [])
    else Step(RunWorld(strict, es[..|es| - 1]), es[|es| - 1])
  }

  function Run(strict: bool, es: seq<Event>): Ledger {
    RunWorld(strict, es).l
  }

  /** The request at position k is granted. */
  predicate Granted(strict: bool, es: seq<Event>, k: nat)
    requires k < |es| && es[k].SubscribeName?
  {
    Grant(Ensure(Run(strict, es[..k]), es[k].id), es[k].id, es[k].ty, es[k].name).1
  }

  // ---- References count streams ----

  function Holders(streams: map<int, Auth>, tenant: Name): set<int> {
    set id | id in streams && tenant in streams[id].tenants
  }

  ghost predicate Counted(l: Ledger, tenant: Name) {
    var n := |Holders(l.streams, tenant)|;
    if n == 0 then tenant !in l.refs else tenant in l.refs && l.refs[tenant] == n
  }

  /** tenantRefs[t] is the number of streams that hold t, and absent when there is none. */
  ghost predicate LedgerOk(l: Ledger) {
    forall t :: Counted(l, t)
  }

  lemma Without(s: set<int>, id: int)
    ensures |s - {id}| == |s| - if id in s then 1 else 0
  {
    if id !in s {
      assert s - {id} == s;
    }
  }

  lemma EnsureKeeps(l: Ledger, id: int, t: Name)
    requires Counted(l, t)
    ensures Counted(Ensure(l, id), t)
  {
    assert Holders(Ensure(l, id).streams, t) == Holders(l.streams, t);
  }

  lemma RecordHolders(l: Ledger, id: int, tenant: Name, ty: TypeURL, t: Name)
    requires id in l.streams
    ensures Holders(Record(l, id, tenant, ty).streams, t)
            == Holders(l.streams, t) + if t == tenant then {id} else {}
    ensures id in Holders(l.streams, t) <==> t in l.streams[id].tenants
  {
  }

  lemma RecordKeeps(l: Ledger, id: int, tenant: Name, ty: TypeURL, t: Name)
    requires id in l.streams && Counted(l, t)
    ensures Counted(Record(l, id, tenant, ty), t)
  {
    hide Holders;
    RecordHolders(l, id, tenant, ty, t);
    var h := Holders(l.streams, t);
    if t == tenant {
      Without(h + {id}, id);
      assert h + {id} - {id} == h - {id};
      Without(h, id);
    } else {
      assert h + {} == h;
    }
  }

  lemma CloseKeeps(l: Ledger, id: int, t: Name)
    requires Counted(l, t)
    ensures Counted(Close(l, id), t)
  {
    if id in l.streams {
      assert Holders(Close(l, id).streams, t) == Holders(l.streams, t) - {id};
      Without(Holders(l.streams, t), id);
    }
  }

  /** Opening a stream keeps the ledger exactly when the id is not in use by a stream that holds tenants. */
  lemma OpenKeepsExactly(l: Ledger, id: int, role: Role, certTenant: Name, hasCert: bool)
    requires LedgerOk(l)
    ensures LedgerOk(Open(l, id, role, certTenant, hasCert)) <==> AuthFor(l, id).tenants == {}
  {
    var l' := Open(l, id, role, certTenant, hasCert);
    forall t ensures Holders(l'.streams, t) == Holders(l.streams, t) - {id} {
    }
    if AuthFor(l, id).tenants == {} {
      forall t ensures Counted(l', t) {
        assert Holders(l'.streams, t) == Holders(l.streams, t);
        assert Counted(l, t);
      }
    } else {
      var t :| t in AuthFor(l, id).tenants;
      assert Counted(l, t);
      Without(Holders(l.streams, t), id);
      assert !Counted(l', t);
    }
  }

  lemma GrantKeeps(l: Ledger, id: int, ty: TypeURL, name: Name, t: Name)
    requires id in l.streams && Counted(l, t)
    ensures Counted(Grant(l, id, ty, name).0, t)
  {
    hide TenantFromName, Authorize;
    if Grant(l, id, ty, name).1 {
      RecordKeeps(l, id, TenantFromName(name), ty, t);
    }
  }

  lemma StepKeeps(w: World, ev: Event)
    requires LedgerOk(w.l) && !ev.OpenStream?
    ensures LedgerOk(Step(w, ev).l)
  {
    hide Grant, Close, Ensure, Puts;
    forall t ensures Counted(Step(w, ev).l, t) {
      assert Counted(w.l, t);
      if ev.SubscribeName? {
        EnsureKeeps(w.l, ev.id, t);
        GrantKeeps(Ensure(w.l, ev.id), ev.id, ev.ty, ev.name, t);
      } else if ev.Empty? {
        EnsureKeeps(w.l, ev.id, t);
      } else if ev.CloseStream? {
        CloseKeeps(w.l, ev.id, t);
      }
    }
  }

  ghost predicate OpensUnused(strict: bool, es: seq<Event>) {
    forall k :: 0 <= k < |es| && es[k].OpenStream? ==> AuthFor(Run(strict, es[..k]), es[k].id).tenants == {}
  }

  lemma {:induction false} RunLedgerOk(strict: bool, es: seq<Event>)
    requires OpensUnused(strict, es)
    ensures LedgerOk(Run(strict, es))
  {
    if es == [] {
      forall t ensures Counted(Run(strict, es), t) {
        assert Holders(Run(strict, es).streams, t) == {};
      }
    } else {
      hide LedgerOk, AuthFor, Step;
      var n := |es| - 1;
      PrefixUnused(strict, es, n);
      RunLedgerOk(strict, es[..n]);
      LastStep(strict, es);
    }
  }

  lemma PrefixUnused(strict: bool, es: seq<Event>, n: nat)
    requires OpensUnused(strict, es) && n <= |es|
    ensures OpensUnused(strict, es[..n])
  {
    hide Run, AuthFor;
    forall k | 0 <= k < n && es[..n][k].OpenStream?
      ensures AuthFor(Run(strict, es[..n][..k]), es[..n][k].id).tenants == {}
    {
      assert es[..n][..k] == es[..k] && es[..n][k] == es[k];
    }
  }

  /**
   * At every point of a run the references count the streams, exactly when no stream is opened under an id that
   * still holds tenants.
   */
  lemma LedgerExactly(strict: bool, es: seq<Event>)
    ensures (forall k :: 0 <= k <= |es| ==> LedgerOk(Run(strict, es[..k]))) <==> OpensUnused(strict, es)
  {
    hide LedgerOk, Run, AuthFor, Step;
    if OpensUnused(strict, es) {
      forall k | 0 <= k <= |es| ensures LedgerOk(Run(strict, es[..k])) {
        PrefixUnused(strict, es, k);
        RunLedgerOk(strict, es[..k]);
      }
    }
    if forall k :: 0 <= k <= |es| ==> LedgerOk(Run(strict, es[..k])) {
      forall k | 0 <= k < |es| && es[k].OpenStream? ensures AuthFor(Run(strict, es[..k]), es[k].id).tenants == {} {
        assert LedgerOk(Run(strict, es[..k])) && LedgerOk(Run(strict, es[..k + 1]));
        assert es[..k + 1][..k] == es[..k];
        LastStep(strict, es[..k + 1]);
      }
    }
  }

  lemma LastStep(strict: bool, es: seq<Event>)
    requires es != [] && LedgerOk(Run(strict, es[..|es| - 1]))
    ensures LedgerOk(Run(strict, es)) <==>
              (es[|es| - 1].OpenStream? ==> AuthFor(Run(strict, es[..|es| - 1]), es[|es| - 1].id).tenants == {})
  {
    hide LedgerOk, Open;
    var w, ev := RunWorld(strict, es[..|es| - 1]), es[|es| - 1];
    if ev.OpenStream? {
      OpenKeepsExactly(w.l, ev.id, ev.role, ev.certTenant, ev.hasCert);
      assert Step(w, ev).l == Open(w.l, ev.id, ev.role, ev.certTenant, ev.hasCert);
    } else {
      hide Step;
      StepKeeps(w, ev);
    }
  }

  /** The failing case: a second open under the id of a stream that holds a tenant forgets the holder, not the count. */
  lemma ReusedIdMiscounts(tenant: Name)
    requires tenant != ""
    ensures !LedgerOk(Run(false, [SubscribeName(1, Of(Policy), ResourceName(tenant)), OpenStream(1, PoP, "", true)]))
  {
    var ask, again := SubscribeName(1, Of(Policy), ResourceName(tenant)), OpenStream(1, PoP, "", true);
    TenantNames(ResourceName(tenant), tenant);
    hide TenantFromName, ResourceName;
    var w := World(Ledger(map[], map[], {}, false), []);
    assert [ask][..0] == [] && [ask, again][..1] == [ask];
    assert RunWorld(false, [ask]) == Step(w, ask);
    assert Step(w, ask).l.refs == map[tenant := 1];
    var l := Run(false, [ask, again]);
    assert Holders(l.streams, tenant) == {};
    assert !Counted(l, tenant);
  }

  // ---- What a stream may hold ----

  /** Every tenant a stream holds is one its certificate allows. */
  ghost predicate HoldsAllowed(l: Ledger) {
    forall id <- l.streams, t <- l.streams[id].tenants :: t != "" && Authorize(l.streams[id], t, l.strict)
  }

  lemma {:induction false} RunHoldsAllowed(strict: bool, es: seq<Event>)
    ensures HoldsAllowed(Run(strict, es)) && Run(strict, es).strict == strict
  {
    hide TenantFromName, Puts, RefsAfterClose, Evict, Evicted;
    if es != [] {
      RunHoldsAllowed(strict, es[..|es| - 1]);
    }
  }

  /** A device stream holds at most its certificate's tenant; in strict mode a stream without a role holds none. */
  lemma DeviceHoldsOwnTenant(strict: bool, es: seq<Event>, id: int, t: Name)
    requires id in Run(strict, es).streams && t in Run(strict, es).streams[id].tenants
    ensures Run(strict, es).streams[id].role == Device ==> t == Run(strict, es).streams[id].certTenant
    ensures Run(strict, es).streams[id].role == NoRole ==> !strict
  {
    hide Run;
    RunHoldsAllowed(strict, es);
  }

  /** Which subscriptions a stream is granted, by the role of its certificate; a grant puts the tenant on its list. */
  lemma GrantExactly(l: Ledger, id: int, ty: TypeURL, tenant: Name)
    requires id in l.streams && tenant != ""
    ensures var a := l.streams[id];
      var (l', ok) := Grant(l, id, ty, ResourceName(tenant));
      && (a.role == PoP ==> ok) && (a.role == Device ==> (ok <==> tenant == a.certTenant))
      && (a.role == NoRole ==> (ok <==> !l.strict))
      && (if ok then l'.streams[id].tenants == a.tenants + {tenant} else l' == l)
  {
    TenantNames(ResourceName(tenant), tenant);
    hide TenantFromName;
  }

  /** A device's request for its own tenant is granted, whatever came before. */
  lemma DeviceGetsOwnTenant(strict: bool, es: seq<Event>, k: nat)
    requires k < |es| && es[k].SubscribeName? && es[k].id in Run(strict, es[..k]).streams
    requires var a := Run(strict, es[..k]).streams[es[k].id];
      a.role == Device && a.certTenant != "" && es[k].name == "tenant/" + a.certTenant
    ensures Granted(strict, es, k)
  {
    hide Run;
    var l := Run(strict, es[..k]);
    GrantExactly(Ensure(l, es[k].id), es[k].id, es[k].ty, l.streams[es[k].id].certTenant);
  }

  /** The name is a tenant's, and the role of the stream's certificate allows that tenant. */
  ghost predicate MaySubscribe(role: Role, certTenant: Name, strict: bool, name: Name) {
    exists tenant ::
      && tenant != "" && name == ResourceName(tenant)
      && (role == PoP || (role == Device && tenant == certTenant) || (role == NoRole && !strict))
  }

  ghost predicate May(a: Auth, strict: bool, name: Name) {
    MaySubscribe(a.role, a.certTenant, strict, name)
  }

  lemma GrantMeaning(l: Ledger, id: int, ty: TypeURL, name: Name)
    requires id in l.streams
    ensures Grant(l, id, ty, name).1 <==> May(l.streams[id], l.strict, name)
    ensures Grant(l, id, ty, name).0.strict == l.strict
    ensures var l' := Grant(l, id, ty, name).0; if Grant(l, id, ty, name).1
      then
        && TenantFromName(name) != "" && name == ResourceName(TenantFromName(name))
        && l'.streams[id] == l.streams[id].(named := l.streams[id].named + {ty},
                                            tenants := l.streams[id].tenants + {TenantFromName(name)})
      else l' == l
  {
    var tenant := TenantFromName(name);
    if tenant != "" {
      TenantNames(name, tenant);
      GrantExactly(l, id, ty, tenant);
    }
    if May(l.streams[id], l.strict, name) {
      var t :| t != "" && name == ResourceName(t);
      TenantNames(name, t);
    }
    hide TenantFromName, ResourceName;
  }

  /**
   * The names of a request up to the first that may not be subscribed, if there is one, are granted, and it is accepted
   * exactly when there is none.
   */
  lemma {:induction false} RequestExactly(l: Ledger, id: int, ty: TypeURL, names: seq<Name>, loaded: seq<bool>, n: nat)
    requires |loaded| == |names| && n <= |names| && id in l.streams
    requires forall i :: 0 <= i < n ==> May(l.streams[id], l.strict, names[i])
    requires n < |names| ==> !May(l.streams[id], l.strict, names[n])
    ensures var (l', ok) := SubscribeAll(l, id, ty, names, loaded);
      && (ok <==> n == |names|) && id in l'.streams
      && (forall t ::
            t in l'.streams[id].tenants <==> t in l.streams[id].tenants || (t != "" && ResourceName(t) in names[..n]))
      && l'.streams[id].named == l.streams[id].named + if n > 0 then {ty} else {}
    decreases |names|
  {
    hide MaySubscribe, Grant;
    if names != [] {
      GrantMeaning(l, id, ty, names[0]);
      if n > 0 {
        var next := Subscribe(l, id, ty, names[0], loaded[0]).0;
        assert forall i :: 0 <= i < n - 1 ==> names[1..][i] == names[i + 1];
        RequestExactly(next, id, ty, names[1..], loaded[1..], n - 1);
        assert names[..n] == [names[0]] + names[1..][..n - 1];
        assert forall t :: t != "" ==> (ResourceName(t) == names[0] <==> t == TenantFromName(names[0])) by {
          forall t | t != "" ensures ResourceName(t) == names[0] <==> t == TenantFromName(names[0]) {
            TenantNames(names[0], t);
          }
        }
      }
    }
  }

  /** A stream keeps the identity it was opened with until it is closed or opened again. */
  lemma {:induction false} IdentityStays(strict: bool, es: seq<Event>, k: nat)
    requires k < |es| && es[k].OpenStream?
    requires forall m :: k < m < |es| ==> es[m] != CloseStream(es[k].id) && !(es[m].OpenStream? && es[m].id == es[k].id)
    ensures es[k].id in Run(strict, es).streams
    ensures var a := Run(strict, es).streams[es[k].id];
      a.role == es[k].role && a.certTenant == es[k].certTenant && a.hasCert == es[k].hasCert
    decreases |es|
  {
    hide TenantFromName, Authorize, Puts, RefsAfterClose, Evict, Evicted;
    if k < |es| - 1 {
      IdentityStays(strict, es[..|es| - 1], k);
    }
  }

  /** A stream that was never opened has no role. */
  lemma {:induction false} UnopenedHasNoRole(strict: bool, es: seq<Event>, id: int)
    requires forall m :: 0 <= m < |es| ==> !(es[m].OpenStream? && es[m].id == id)
    ensures id in Run(strict, es).streams ==> Run(strict, es).streams[id].role == NoRole
  {
    hide TenantFromName, Authorize, Puts, RefsAfterClose, Evict, Evicted;
    if es != [] {
      UnopenedHasNoRole(strict, es[..|es| - 1], id);
    }
  }

  // ---- No wildcard ----

  /** Position j granted the stream a subscription of the type, and the stream has not been opened or closed since. */
  ghost predicate NamedAt(strict: bool, es: seq<Event>, id: int, ty: TypeURL, j: nat) {
    && j < |es| && es[j].SubscribeName? && es[j].id == id && es[j].ty == ty && Granted(strict, es, j)
    && forall m :: j < m < |es| ==> es[m] != CloseStream(id) && !(es[m].OpenStream? && es[m].id == id)
  }

  /** What one step does to the types a stream has named. */
  lemma NamedStep(l: Ledger, ev: Event, id: int, ty: TypeURL)
    ensures (ev.OpenStream? && ev.id == id) || ev == CloseStream(id) ==> ty !in AuthFor(StepLedger(l, ev), id).named
    ensures !((ev.OpenStream? && ev.id == id) || ev == CloseStream(id)) ==>
              (ty in AuthFor(StepLedger(l, ev), id).named <==>
               ty in AuthFor(l, id).named
               || (ev.SubscribeName? && ev.id == id && ev.ty == ty
                   && Grant(Ensure(l, id), id, ty, ev.name).1))
  {
    hide TenantFromName, Authorize;
  }

  lemma NamedBefore(strict: bool, es: seq<Event>, id: int, ty: TypeURL, j: nat)
    requires es != [] && j < |es| - 1
    requires es[|es| - 1] != CloseStream(id) && !(es[|es| - 1].OpenStream? && es[|es| - 1].id == id)
    ensures NamedAt(strict, es, id, ty, j) <==> NamedAt(strict, es[..|es| - 1], id, ty, j)
  {
    hide Run, Grant;
    assert es[..|es| - 1][..j] == es[..j];
  }

  ghost predicate NamedSince(strict: bool, es: seq<Event>, id: int, ty: TypeURL) {
    exists j: nat :: NamedAt(strict, es, id, ty, j)
  }

  ghost predicate Renews(ev: Event, id: int) {
    (ev.OpenStream? && ev.id == id) || ev == CloseStream(id)
  }

  /** How the last event changes what has been named since the stream was opened. */
  lemma NamedSinceStep(strict: bool, es: seq<Event>, id: int, ty: TypeURL)
    requires es != []
    ensures var n := |es| - 1;
      NamedSince(strict, es, id, ty) <==>
        !Renews(es[n], id)
        && (NamedSince(strict, es[..n], id, ty)
            || (es[n].SubscribeName? && es[n].id == id && es[n].ty == ty && Granted(strict, es, n)))
  {
    hide Granted;
    var n := |es| - 1;
    if !Renews(es[n], id) {
      forall j: nat | j < n ensures NamedAt(strict, es, id, ty, j) <==> NamedAt(strict, es[..n], id, ty, j) {
        NamedBefore(strict, es, id, ty, j);
      }
      assert NamedAt(strict, es, id, ty, n) <==>
             es[n].SubscribeName? && es[n].id == id && es[n].ty == ty && Granted(strict, es, n);
      if NamedSince(strict, es[..n], id, ty) {
        var j: nat :| NamedAt(strict, es[..n], id, ty, j);
        assert NamedAt(strict, es, id, ty, j);
      }
    }
  }

  /**
   * A request without names is accepted exactly when the same stream was earlier granted a subscription of the same
   * type by name; otherwise, as the first request of its type, it is refused.
   */
  lemma {:induction false} NoWildcard(strict: bool, es: seq<Event>, id: int, ty: TypeURL)
    ensures Request(Run(strict, es), id, ty, [], []).1 <==> NamedSince(strict, es, id, ty)
  {
    if es != [] {
      hide Run, StepLedger, Grant, NamedSince, NamedAt;
      var n := |es| - 1;
      NoWildcard(strict, es[..n], id, ty);
      var l, ev := Run(strict, es[..n]), es[n];
      RunStep(strict, es);
      assert AuthFor(Run(strict, es), id) == AuthFor(StepLedger(l, ev), id);
      NamedStep(l, ev, id, ty);
      NamedSinceStep(strict, es, id, ty);
    }
  }

  lemma RunStep(strict: bool, es: seq<Event>)
    requires es != []
    ensures var w, ev := RunWorld(strict, es[..|es| - 1]), es[|es| - 1];
      && Run(strict, es).streams == StepLedger(w.l, ev).streams
      && Run(strict, es).caches == StepLedger(w.l, ev).caches + Puts(w, ev)
      && w.l == Run(strict, es[..|es| - 1])
  {
  }

  // ---- Caches ----

  /** The last subscriber's departure empties all six caches of its tenant; other tenants keep theirs. */
  lemma CloseEvictsExactly(strict: bool, es: seq<Event>, id: int, c: (Cache, Name))
    requires OpensUnused(strict, es) && id in Run(strict, es).streams
    ensures var l := Run(strict, es);
      c in Close(l, id).caches <==> c in l.caches && !(Holders(l.streams, c.1) == {id})
  {
    hide Run;
    LedgerExactly(strict, es);
    assert es[..|es|] == es;
    var l := Run(strict, es);
    assert LedgerOk(l) && Counted(l, c.1);
    var h := Holders(l.streams, c.1);
    Without(h, id);
    if h - {id} == {} && id in h {
      assert h == {id};
    }
  }

  ghost predicate Held(strict: bool, es: seq<Event>, t: Name) {
    Holders(Run(strict, es).streams, t) != {}
  }

  /** Position j puts the resource into its cache at a moment without a holder, and there has been none since. */
  ghost predicate PutUnheld(strict: bool, es: seq<Event>, c: (Cache, Name), j: nat) {
    && j < |es| && c in Puts(RunWorld(strict, es[..j]), es[j])
    && forall m :: j <= m <= |es| ==> !Held(strict, es[..m], c.1)
  }

  ghost predicate Leftover(strict: bool, es: seq<Event>, c: (Cache, Name)) {
    exists j: nat :: PutUnheld(strict, es, c, j)
  }

  /** Without holders neither opening, requests nor closing touch the caches of a tenant. */
  lemma UnheldStep(l: Ledger, ev: Event, c: (Cache, Name))
    requires Holders(l.streams, c.1) == {}
    ensures c in StepLedger(l, ev).caches <==> c in l.caches
  {
    hide TenantFromName, Authorize;
    assert forall id :: id in l.streams && c.1 in l.streams[id].tenants ==> id in Holders(l.streams, c.1);
  }

  /** The step that takes the last holder away is its close, and it empties the caches. */
  lemma LastHolderGoes(strict: bool, es: seq<Event>, t: Name)
    requires OpensUnused(strict, es) && es != []
    requires Held(strict, es[..|es| - 1], t) && !Held(strict, es, t)
    ensures es[|es| - 1].CloseStream?
    ensures Holders(Run(strict, es[..|es| - 1]).streams, t) == {es[|es| - 1].id}
    ensures forall cache :: (cache, t) !in Run(strict, es).caches
  {
    hide TenantFromName, Authorize, OpensUnused, RefsAfterClose, Evict, Evicted;
    var n := |es| - 1;
    var l, ev := Run(strict, es[..n]), es[n];
    PrefixUnused(strict, es, n);
    if ev.OpenStream? {
      OpenUnusedAt(strict, es, n);
    }
    RunStep(strict, es);
    var id :| id in Holders(l.streams, t);
    assert id !in Holders(Run(strict, es).streams, t);
    forall other | other in Holders(l.streams, t) ensures other == ev.id {
      assert other !in Holders(Run(strict, es).streams, t);
    }
    assert Holders(l.streams, t) == {ev.id};
    forall cache ensures (cache, t) !in Run(strict, es).caches {
      CloseEvictsExactly(strict, es[..n], ev.id, (cache, t));
    }
  }

  lemma OpenUnusedAt(strict: bool, es: seq<Event>, k: nat)
    requires OpensUnused(strict, es) && k < |es| && es[k].OpenStream?
    ensures AuthFor(Run(strict, es[..k]), es[k].id).tenants == {}
  {
  }

  /**
   * When a cache holds a resource of a tenant without a subscriber, exactly: some load, of a notification or of a
   * reconciliation, put it there when the tenant had none, and none has come since. Closing never leaves one behind.
   */
  lemma {:induction false} LeftoverExactly(strict: bool, es: seq<Event>, c: (Cache, Name))
    requires OpensUnused(strict, es)
    ensures c in Run(strict, es).caches && !Held(strict, es, c.1) <==> Leftover(strict, es, c)
  {
    hide OpensUnused, Held, Run, Puts, RunWorld;
    assert es[..|es|] == es;
    if es == [] {
      NothingCached(strict);
    } else if Held(strict, es, c.1) {
      forall j: nat ensures !PutUnheld(strict, es, c, j) {
        assert Held(strict, es[..|es|], c.1);
      }
    } else {
      var n := |es| - 1;
      PrefixUnused(strict, es, n);
      LeftoverExactly(strict, es[..n], c);
      if Held(strict, es[..n], c.1) {
        LastHolderGoes(strict, es, c.1);
        forall j: nat ensures !PutUnheld(strict, es, c, j) {
          assert j <= n ==> Held(strict, es[..n], c.1);
        }
      } else {
        LeftoverStep(strict, es, c);
      }
    }
  }

  lemma NothingCached(strict: bool)
    ensures Run(strict, []).caches == {}
  {
  }

  lemma PutBefore(strict: bool, es: seq<Event>, c: (Cache, Name), j: nat)
    requires es != [] && j < |es| - 1 && !Held(strict, es, c.1)
    ensures PutUnheld(strict, es, c, j) <==> PutUnheld(strict, es[..|es| - 1], c, j)
  {
    hide Held, Puts, RunWorld;
    var n := |es| - 1;
    assert es[..|es|] == es;
    forall m | 0 <= m <= n ensures es[..n][..m] == es[..m] {
    }
    if PutUnheld(strict, es, c, j) {
      forall m | j <= m <= n ensures !Held(strict, es[..n][..m], c.1) {
        assert !Held(strict, es[..m], c.1);
      }
    }
    if PutUnheld(strict, es[..n], c, j) {
      forall m | j <= m <= |es| ensures !Held(strict, es[..m], c.1) {
        if m <= n {
          assert !Held(strict, es[..n][..m], c.1);
        }
      }
    }
  }

  lemma PutNow(strict: bool, es: seq<Event>, c: (Cache, Name))
    requires es != [] && !Held(strict, es, c.1) && !Held(strict, es[..|es| - 1], c.1)
    ensures PutUnheld(strict, es, c, |es| - 1) <==> c in Puts(RunWorld(strict, es[..|es| - 1]), es[|es| - 1])
  {
    hide Held, Puts, RunWorld;
    assert es[..|es|] == es;
  }

  lemma LeftoverStep(strict: bool, es: seq<Event>, c: (Cache, Name))
    requires es != [] && !Held(strict, es, c.1) && !Held(strict, es[..|es| - 1], c.1)
    requires c in Run(strict, es[..|es| - 1]).caches <==> Leftover(strict, es[..|es| - 1], c)
    ensures c in Run(strict, es).caches <==> Leftover(strict, es, c)
  {
    var n := |es| - 1;
    RunStep(strict, es);
    UnheldStep(RunWorld(strict, es[..n]).l, es[n], c);
    PutNow(strict, es, c);
    hide Held, Run, Puts, RunWorld, StepLedger, PutUnheld;
    forall j: nat | j < n ensures PutUnheld(strict, es, c, j) <==> PutUnheld(strict, es[..n], c, j) {
      PutBefore(strict, es, c, j);
    }
    PutsEnd(strict, es, c);
    PutsEnd(strict, es[..n], c);
  }

  lemma PutsEnd(strict: bool, es: seq<Event>, c: (Cache, Name))
    ensures forall j: nat :: PutUnheld(strict, es, c, j) ==> j < |es|
  {
  }

  // ---- Reconciliation ----

  /** Position i began the reconciliation round. */
  ghost predicate BeginsAt(strict: bool, es: seq<Event>, i: nat, round: nat) {
    i < |es| && es[i].ReconcileBegin? && |RunWorld(strict, es[..i]).rounds| == round
  }

  lemma {:induction false} RoundBegan(strict: bool, es: seq<Event>, round: nat) returns (i: nat)
    requires round < |RunWorld(strict, es).rounds|
    ensures BeginsAt(strict, es, i, round)
    ensures RunWorld(strict, es).rounds[round] == Run(strict, es[..i]).refs.Keys
  {
    hide StepLedger, Puts;
    var n := |es| - 1;
    if round < |RunWorld(strict, es[..n]).rounds| {
      i := RoundBegan(strict, es[..n], round);
      assert es[..n][..i] == es[..i] && es[..n][i] == es[i];
    } else {
      i := n;
    }
  }

  /** What a reconciliation adds belongs to a tenant that had a subscriber when the round began. */
  lemma ReconcileHeldAtSnapshot(strict: bool, es: seq<Event>, j: nat, c: (Cache, Name)) returns (i: nat)
    requires OpensUnused(strict, es)
    requires j < |es| && es[j].ReconcileLoad? && c in Puts(RunWorld(strict, es[..j]), es[j])
    ensures i < j && BeginsAt(strict, es, i, es[j].round) && Held(strict, es[..i], c.1)
  {
    hide OpensUnused, RunWorld, LedgerOk;
    i := RoundBegan(strict, es[..j], es[j].round);
    assert es[..j][..i] == es[..i] && es[..j][i] == es[i];
    LedgerExactly(strict, es);
    RefsHeld(strict, es[..i], c.1);
  }

  lemma RefsHeld(strict: bool, es: seq<Event>, t: Name)
    requires LedgerOk(Run(strict, es)) && t in Run(strict, es).refs
    ensures Held(strict, es, t)
  {
    hide Run;
    assert Counted(Run(strict, es), t);
  }

  /** Position m closed the only stream that held the tenant, and up to j nobody has subscribed to it again. */
  ghost predicate LastCloses(strict: bool, es: seq<Event>, m: nat, j: nat, t: Name)
    requires j <= |es|
  {
    && m < j && es[m].CloseStream? && Holders(Run(strict, es[..m]).streams, t) == {es[m].id}
    && forall q :: m < q <= j ==> !Held(strict, es[..q], t)
  }

  /**
   * A tenant held when the round began has no holder at a later load, so that the load leaves a resource behind,
   * exactly when its last holder closed in between and nobody has come back.
   */
  lemma {:induction false} ReconcileLeavesExactly(strict: bool, es: seq<Event>, i: nat, j: nat, t: Name)
    requires OpensUnused(strict, es) && i <= j <= |es| && Held(strict, es[..i], t)
    ensures !Held(strict, es[..j], t) <==> exists m: nat :: i <= m && LastCloses(strict, es, m, j, t)
    decreases j
  {
    hide OpensUnused, Held, Run;
    if !Held(strict, es[..j], t) {
      assert i < j;
      if Held(strict, es[..j - 1], t) {
        PrefixUnused(strict, es, j);
        assert es[..j][..j - 1] == es[..j - 1];
        LastHolderGoes(strict, es[..j], t);
        assert LastCloses(strict, es, j - 1, j, t);
      } else {
        ReconcileLeavesExactly(strict, es, i, j - 1, t);
        var m: nat :| i <= m && LastCloses(strict, es, m, j - 1, t);
        assert LastCloses(strict, es, m, j, t);
      }
    }
  }

  function Subscriber(tenant: Name, cache: Cache): seq<Event> {
    [OpenStream(1, PoP, "", true), SubscribeName(1, Of(cache), ResourceName(tenant)), ReconcileBegin]
  }

  /** A stream subscribes to a tenant and a round begins. */
  lemma OneSubscriber(tenant: Name, cache: Cache)
    requires tenant != ""
    ensures var a := Auth(PoP, "", true, {tenant}, {Of(cache)});
      && RunWorld(false, Subscriber(tenant, cache))
         == World(Ledger(map[1 := a], map[tenant := 1], {}, false), [{tenant}])
      && OpensUnused(false, Subscriber(tenant, cache))
  {
    TenantNames(ResourceName(tenant), tenant);
    hide TenantFromName, ResourceName;
    var es := Subscriber(tenant, cache);
    var w0 := World(Ledger(map[], map[], {}, false), []);
    var w1 := World(Ledger(map[1 := Auth(PoP, "", true, {}, {})], map[], {}, false), []);
    var w2 := World(Ledger(map[1 := Auth(PoP, "", true, {tenant}, {Of(cache)})], map[tenant := 1], {}, false), []);
    assert Step(w0, es[0]) == w1;
    assert Ensure(w1.l, 1) == w1.l;
    assert w1.l.streams[1 := w2.l.streams[1]] == w2.l.streams && w1.l.refs[tenant := 1] == w2.l.refs;
    var a := w1.l.streams[1];
    assert a.named + {Of(cache)} == {Of(cache)} && a.tenants + {tenant} == {tenant};
    assert Record(w1.l, 1, tenant, Of(cache)).streams[1] == w2.l.streams[1];
    assert Record(w1.l, 1, tenant, Of(cache)) == w2.l;
    assert Step(w1, es[1]) == w2;
    assert w2.l.refs.Keys == {tenant};
    assert Step(w2, es[2]) == World(w2.l, [{tenant}]);
    assert es[..0] == [] && es[..1][..0] == [] && es[..2][..1] == es[..1];
    assert RunWorld(false, es[..1]) == w1 && RunWorld(false, es[..2]) == w2;
  }

  /**
   * The failing case: subscribed, noted by a round, closed and then loaded. The resource is in its cache again
   * although nobody holds its tenant.
   */
  lemma LateReloadRevives(tenant: Name, cache: Cache)
    requires tenant != ""
    ensures var es := Subscriber(tenant, cache) + [CloseStream(1), ReconcileLoad(0, cache, tenant)];
      OpensUnused(false, es) && (cache, tenant) in Run(false, es).caches && !Held(false, es, tenant)
  {
    var start := Subscriber(tenant, cache);
    var es := start + [CloseStream(1), ReconcileLoad(0, cache, tenant)];
    OneSubscriber(tenant, cache);
    var w3 := RunWorld(false, start);
    assert es[..3] == start && es[..4][..3] == start && es[..5][..4] == es[..4] && es[..5] == es;
    hide Subscriber;
    var w4 := World(Ledger(map[], map[], {}, false), [{tenant}]);
    assert Step(w3, es[3]) == w4;
    assert RunWorld(false, es[..4]) == w4;
    assert RunWorld(false, es) == Step(w4, es[4]);
    forall k | 0 <= k < |es| && es[k].OpenStream? ensures AuthFor(Run(false, es[..k]), es[k].id).tenants == {} {
      assert es[..k] == start[..k] && es[k] == start[k];
    }
  }

  // ---- A whole request is its names one by one ----

  /** One granted name and its load, which puts a resource when there is one and a cache for it. */
  function NameSteps(id: int, ty: TypeURL, name: Name, loaded: bool): seq<Event> {
    [SubscribeName(id, ty, name)]
    + if loaded && ty.Of? then [SubscribeLoad(id, ty.cache, TenantFromName(name))] else []
  }

  function Split(id: int, ty: TypeURL, names: seq<Name>, loaded: seq<bool>): (es: seq<Event>)
    requires |loaded| == |names|
  {
    if names == [] then [] else NameSteps(id, ty, names[0], loaded[0]) + Split(id, ty, names[1..], loaded[1..])
  }

  function Fold(w: World, es: seq<Event>): World
    decreases |es|
  {
    if es == [] then w else Fold(Step(w, es[0]), es[1..])
  }

  lemma {:induction false} FoldAppend(w: World, a: seq<Event>, b: seq<Event>)
    ensures Fold(w, a + b) == Fold(Fold(w, a), b)
    decreases |a|
  {
    if a == [] {
      assert a + b == b;
    } else {
      assert (a + b)[1..] == a[1..] + b;
      FoldAppend(Step(w, a[0]), a[1..], b);
    }
  }

  lemma EnsureTwice(l: Ledger, id: int)
    requires id in l.streams
    ensures Ensure(l, id) == l
  {
    assert l.streams[id := l.streams[id]] == l.streams;
  }

  /** One name of a request is the step that grants it and the step that loads. */
  lemma NameIsSteps(w: World, id: int, ty: TypeURL, name: Name, loaded: bool)
    requires id in w.l.streams && Subscribe(w.l, id, ty, name, loaded).1
    ensures Fold(w, NameSteps(id, ty, name, loaded)) == World(Subscribe(w.l, id, ty, name, loaded).0, w.rounds)
  {
    hide TenantFromName, Authorize;
    EnsureTwice(w.l, id);
    var ev := SubscribeName(id, ty, name);
    var w' := Step(w, ev);
    var l' := Grant(w.l, id, ty, name).0;
    assert l'.caches + {} == l'.caches;
    assert w' == World(l', w.rounds);
    assert Fold(w, [ev]) == w';
    if loaded && ty.Of? {
      var load := SubscribeLoad(id, ty.cache, TenantFromName(name));
      FoldAppend(w, [ev], [load]);
      assert Fold(w', [load]) == Step(w', load);
    } else {
      assert [ev] + [] == [ev];
    }
  }

  /** A request stops at its first refusal and keeps what was granted before: it is a run of single-name steps. */
  lemma {:induction false} RequestIsSteps(w: World, id: int, ty: TypeURL, names: seq<Name>, loaded: seq<bool>)
    returns (n: nat)
    requires id in w.l.streams && |loaded| == |names|
    ensures n <= |names|
    ensures World(SubscribeAll(w.l, id, ty, names, loaded).0, w.rounds)
            == Fold(w, Split(id, ty, names[..n], loaded[..n]))
    ensures SubscribeAll(w.l, id, ty, names, loaded).1 <==> n == |names|
    decreases |names|
  {
    hide Subscribe, NameSteps;
    n := 0;
    assert names[..0] == [] && loaded[..0] == [];
    if names != [] {
      var (l', ok) := Subscribe(w.l, id, ty, names[0], loaded[0]);
      if !ok {
        Refused(w.l, id, ty, names[0], loaded[0]);
      } else {
        var m := RequestIsSteps(World(l', w.rounds), id, ty, names[1..], loaded[1..]);
        n := m + 1;
        NameIsSteps(w, id, ty, names[0], loaded[0]);
        assert names[..n][1..] == names[1..][..m] && loaded[..n][1..] == loaded[1..][..m];
        FoldAppend(w, NameSteps(id, ty, names[0], loaded[0]), Split(id, ty, names[1..][..m], loaded[1..][..m]));
      }
    }
  }

  lemma Refused(l: Ledger, id: int, ty: TypeURL, name: Name, loaded: bool)
    requires id in l.streams && !Subscribe(l, id, ty, name, loaded).1
    ensures Subscribe(l, id, ty, name, loaded).0 == l
  {
  }
}
