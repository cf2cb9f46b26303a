/** Whole runs of the ZTNA terminator: every write to the TUN is justified, and revocation is final. */
module TerminatorRuns {
  import opened Bytes
  import opened Names
  import opened Packet
  import opened Pep
  import opened TerminatorState
  import Compiler

  /** What a handshake goes on with after VerifyCred: the tenant of its certificate and the claims it was handed. */
  datatype Handshake = Handshake(tenant: Name, claims: Claims)

  datatype World<E, A> = World(cfg: Config, t: Tables<E, A>, shakes: map<nat, Handshake>)

  datatype Event<E, A> =
    | SetRevoked(tenant: Name, jtis: set<Name>)
    | SetBundle(tenant: Name, rules: seq<Compiler.Rule>)
    | Verified(h: nat, certTenant: Name, verified: Option<Claims>)
    | Established(h: nat, e: E, src: A, ok: bool, now: int)
    | Datagram(src: A, now: int, payload: Option<seq<seq<byte>>>)
    | Proxied(ip: Ip, now: int, app: Option<Name>)
    | EvictRevoked(tenant: Name)
    | Sweep(now: int)

  /** What a connection to the transparent proxy does to the tables: its session may be evicted. */
  ghost function Proxy<E, A>(w: World<E, A>, ip: Ip, now: int, app: Option<Name>): (t: Tables<E, A>)
    requires Known(w.t)
    ensures Known(t)
    ensures t.sessions == w.t.sessions
  {
    if Canon(ip) !in w.t.byInner then w.t else
    var e := w.t.byInner[Canon(ip)];
    if w.t.sessions[e].deadline <= now then Evict(w.t, w.t.sessions[e].src, e)
    else if app.None? then w.t
    else DecideResource(w.cfg, w.t, e, app.value).0
  }

  /** VerifyCred inside handshake h: only claims it returns are taken further. */
  ghost function Verify<E, A>(w: World<E, A>, h: nat, certTenant: Name, verified: Option<Claims>): World<E, A> {
    var result := VerifyCred(w.cfg, verified, certTenant);
    if h in w.shakes || !result.CredOk? then w
    else w.(shakes := w.shakes[h := Handshake(certTenant, result.claims)])
  }

  /** The end of handshake h, any time after its verification. A session object is registered once. */
  ghost function Finish<E, A>(w: World<E, A>, h: nat, e: E, src: A, ok: bool, now: int): (w': World<E, A>)
    requires Known(w.t)
    ensures Known(w'.t)
  {
    if h !in w.shakes || e in w.t.sessions then w else
    var s := w.shakes[h];
    w.(t := Establish(w.cfg, w.t, e, s.claims, s.tenant, src, ok, now), shakes := w.shakes - {h})
  }

  /** One handler call. */
  ghost function Step<E, A>(w: World<E, A>, ev: Event<E, A>): (w': World<E, A>)
    requires Known(w.t)
    ensures Known(w'.t)
  {
    match ev
    case SetRevoked(tenant, jtis) => w.(cfg := w.cfg.(revoked := w.cfg.revoked[tenant := jtis]))
    case SetBundle(tenant, rules) => w.(cfg := w.cfg.(bundles := w.cfg.bundles[tenant := rules]))
    case Verified(h, certTenant, verified) => Verify(w, h, certTenant, verified)
    case Established(h, e, src, ok, now) => Finish(w, h, e, src, ok, now)
    case Datagram(src, now, payload) =>
      HandleEvolves(w.cfg, w.t, src, now, payload);
      w.(t := Handle(w.cfg, w.t, src, now, payload).0)
    case Proxied(ip, now, app) => w.(t := Proxy(w, ip, now, app))
    case EvictRevoked(tenant) => w.(t := EvictAll(w.t, RevokedOf(w.cfg, w.t, tenant)))
    case Sweep(now) => w.(t := EvictAll(w.t, ExpiredAt(w.t, now)))
  }

  ghost function Run<E, A>(cfg: Config, es: seq<Event<E, A>>): (w: World<E, A>)
    ensures Known(w.t)
  {
    if es == [] then World(cfg, EmptyTables(), map[]) else Step(Run(cfg, es[..|es| - 1]), es[|es| - 1])
  }

  /** What the datagram at position k makes the terminator write or drop. */
  ghost function Outcomes<E, A>(cfg: Config, es: seq<Event<E, A>>, k: nat): seq<Outcome>
    requires k < |es| && es[k].Datagram?
  {
    var w := Run(cfg, es[..k]);
    Handle(w.cfg, w.t, es[k].src, es[k].now, es[k].payload).1
  }

  // ---- What one datagram can do ----

  /** The tenant has a bundle whose first rule for connecting to the application is not a deny. */
  ghost predicate PolicyLets(cfg: Config, tenant: Name, c: Claims, app: Name) {
    tenant in cfg.bundles
    && exists i: nat ::
         FirstMatch(cfg.bundles[tenant], i, c, app, "connect") && cfg.bundles[tenant][i].effect != "deny"
  }

  lemma PepAllowsMeaning(cfg: Config, c: Claims, tenant: Name, app: Name)
    ensures PepAllows(cfg, c, tenant, app) <==> PolicyLets(cfg, tenant, c, app)
  {
    hide FirstMatch, Pep.Decide;
    DecideLetsThrough(BundleOf(cfg, tenant), c, app, "connect");
  }

  /** The session's tenant has an application at the destination, which its credential may now connect to. */
  ghost predicate AllowedIn<E, A>(cfg: Config, t: Tables<E, A>, e: E, dst: Ip, port: u16) {
    && e in t.sessions
    && var s := t.sessions[e];
       var app := Resolve(cfg.apps, s.tenant, dst, port);
       && app.Some? && !IsRevoked(cfg, s.tenant, s.claims.jti) && PolicyLets(cfg, s.tenant, s.claims, app.value)
  }

  ghost predicate SameIdentity<A>(s: Term<A>, s': Term<A>) {
    s'.src == s.src && s'.claims == s.claims && s'.tenant == s.tenant && s'.deadline == s.deadline
  }

  /** An allowing verdict of x after a datagram of e at `now` was there before, or is new and just decided. */
  ghost predicate FlowFrom<E, A>(cfg: Config, t: Tables<E, A>, t': Tables<E, A>, e: E, now: int, x: E, key: Tuple5)
    requires x in t.sessions && x in t'.sessions && key in t'.sessions[x].flows
  {
    || (key in t.sessions[x].flows && t'.sessions[x].flows[key] == t.sessions[x].flows[key])
    || (x == e && t'.sessions[x].flows[key].expire == now + FLOW_CACHE_TTL
        && AllowedIn(cfg, t, e, key.dst, key.dstPort))
  }

  ghost predicate Evolves<E, A>(cfg: Config, t: Tables<E, A>, t': Tables<E, A>, e: E, now: int) {
    && t'.sessions.Keys == t.sessions.Keys
    && (forall x <- t.sessions ::
          SameIdentity(t.sessions[x], t'.sessions[x]) && (x != e ==> t'.sessions[x] == t.sessions[x]))
    && (forall x <- t.sessions, key <- t'.sessions[x].flows ::
          t'.sessions[x].flows[key].allow ==> FlowFrom(cfg, t, t', e, now, x, key))
    && (forall src <- t'.bySrc :: src in t.bySrc && t'.bySrc[src] == t.bySrc[src])
    && (forall ip <- t'.byInner :: t'.byInner[ip] == e || (ip in t.byInner && t'.byInner[ip] == t.byInner[ip]))
  }

  /** A flow is let through by its cached verdict or by a decision now. */
  ghost predicate Permit<E, A>(cfg: Config, t: Tables<E, A>, e: E, now: int, key: Tuple5)
    requires e in t.sessions
  {
    || (key in t.sessions[e].flows && t.sessions[e].flows[key].allow && now < t.sessions[e].flows[key].expire)
    || AllowedIn(cfg, t, e, key.dst, key.dstPort)
  }

  lemma CanonTwice(ip: Ip)
    ensures Canon(Canon(ip)) == Canon(ip)
  {
  }

  lemma ResolveKey(apps: map<Name, seq<AppRule>>, tenant: Name, tup: Tuple5)
    ensures Resolve(apps, tenant, KeyOf(tup).dst, KeyOf(tup).dstPort) == Resolve(apps, tenant, tup.dst, tup.dstPort)
  {
    hide Canon, FirstRule;
    CanonTwice(tup.dst);
    if tenant in apps {
      FirstRuleCanon(apps[tenant], KeyOf(tup).dst, tup.dst, tup.dstPort);
    }
  }

  lemma DecideEvolves<E, A>(cfg: Config, t: Tables<E, A>, e: E, now: int, tup: Tuple5)
    requires e in t.sessions
    ensures Evolves(cfg, t, TerminatorState.Decide(cfg, t, e, now, tup).0, e, now)
    ensures TerminatorState.Decide(cfg, t, e, now, tup).1.None? ==> Permit(cfg, t, e, now, KeyOf(tup))
  {
    hide KeyOf, Resolve, PepAllows, PolicyLets, IsRevoked;
    ResolveKey(cfg.apps, t.sessions[e].tenant, tup);
    var app := Resolve(cfg.apps, t.sessions[e].tenant, tup.dst, tup.dstPort);
    if app.Some? {
      PepAllowsMeaning(cfg, t.sessions[e].claims, t.sessions[e].tenant, app.value);
    }
  }

  lemma LearnEvolves<E, A>(cfg: Config, t: Tables<E, A>, e: E, now: int, ip: Ip)
    requires e in t.sessions
    ensures Evolves(cfg, t, Learn(t, e, ip), e, now)
  {
    hide Canon, AllowedIn;
  }

  lemma AllowedSame<E, A>(cfg: Config, t: Tables<E, A>, t': Tables<E, A>, e: E, now: int, dst: Ip, port: u16)
    requires Evolves(cfg, t, t', e, now)
    ensures AllowedIn(cfg, t, e, dst, port) == AllowedIn(cfg, t', e, dst, port)
  {
    hide Resolve, IsRevoked, PolicyLets, FlowFrom;
  }

  lemma EvolvesTrans<E, A>(cfg: Config, t: Tables<E, A>, t': Tables<E, A>, t'': Tables<E, A>, e: E, now: int)
    requires Evolves(cfg, t, t', e, now) && Evolves(cfg, t', t'', e, now)
    ensures Evolves(cfg, t, t'', e, now)
  {
    hide AllowedIn;
    forall x <- t.sessions, key <- t''.sessions[x].flows | t''.sessions[x].flows[key].allow
      ensures FlowFrom(cfg, t, t'', e, now, x, key)
    {
      assert FlowFrom(cfg, t', t'', e, now, x, key);
      AllowedSame(cfg, t, t', e, now, key.dst, key.dstPort);
      if key in t'.sessions[x].flows && t''.sessions[x].flows[key] == t'.sessions[x].flows[key] {
        assert FlowFrom(cfg, t, t', e, now, x, key);
      }
    }
  }

  lemma PermitBefore<E, A>(cfg: Config, t: Tables<E, A>, t': Tables<E, A>, e: E, now: int, key: Tuple5)
    requires e in t.sessions && Evolves(cfg, t, t', e, now) && Permit(cfg, t', e, now, key)
    ensures Permit(cfg, t, e, now, key)
  {
    hide AllowedIn;
    AllowedSame(cfg, t, t', e, now, key.dst, key.dstPort);
    if key in t'.sessions[e].flows && t'.sessions[e].flows[key].allow {
      assert FlowFrom(cfg, t, t', e, now, e, key);
    }
  }

  lemma ForwardEvolves<E, A>(cfg: Config, t: Tables<E, A>, e: E, now: int, pkt: seq<byte>)
    requires e in t.sessions
    ensures Evolves(cfg, t, Forward(cfg, t, e, now, pkt).0, e, now)
    ensures Forward(cfg, t, e, now, pkt).1.Written? ==>
              Forward(cfg, t, e, now, pkt).1.pkt == pkt && ParseStrict(pkt).Some?
              && Permit(cfg, t, e, now, KeyOf(ParseStrict(pkt).value))
  {
    hide ParseStrict, TerminatorState.Decide, Learn, AllowedIn, Permit, KeyOf;
    match ParseStrict(pkt)
    case None =>
    case Some(tup) =>
      var mid := Learn(t, e, tup.src);
      LearnEvolves(cfg, t, e, now, tup.src);
      DecideEvolves(cfg, mid, e, now, tup);
      EvolvesTrans(cfg, t, mid, TerminatorState.Decide(cfg, mid, e, now, tup).0, e, now);
      if Forward(cfg, t, e, now, pkt).1.Written? {
        PermitBefore(cfg, t, mid, e, now, KeyOf(tup));
      }
  }

  /** A packet that was written belongs to a flow that is let through. */
  ghost predicate WrittenOk<E, A>(cfg: Config, t: Tables<E, A>, e: E, now: int, out: Outcome)
    requires e in t.sessions
  {
    out.Written? ==> ParseStrict(out.pkt).Some? && Permit(cfg, t, e, now, KeyOf(ParseStrict(out.pkt).value))
  }

  lemma {:induction false} ForwardAllEvolves<E, A>(cfg: Config, t: Tables<E, A>, e: E, now: int, pkts: seq<seq<byte>>)
    requires e in t.sessions
    ensures Evolves(cfg, t, ForwardAll(cfg, t, e, now, pkts).0, e, now)
    ensures forall out <- ForwardAll(cfg, t, e, now, pkts).1 :: WrittenOk(cfg, t, e, now, out)
  {
    if pkts == [] {
      hide AllowedIn;
    } else {
      hide Forward, Permit, ParseStrict, KeyOf, Evolves, WrittenOk;
      var n := |pkts| - 1;
      var (t', outs) := ForwardAll(cfg, t, e, now, pkts[..n]);
      ForwardAllEvolves(cfg, t, e, now, pkts[..n]);
      ForwardEvolves(cfg, t', e, now, pkts[n]);
      EvolvesTrans(cfg, t, t', Forward(cfg, t', e, now, pkts[n]).0, e, now);
      WrittenBefore(cfg, t, t', e, now, Forward(cfg, t', e, now, pkts[n]).1);
    }
  }

  lemma WrittenBefore<E, A>(cfg: Config, t: Tables<E, A>, t': Tables<E, A>, e: E, now: int, out: Outcome)
    requires e in t.sessions && e in t'.sessions && Evolves(cfg, t, t', e, now)
    requires out.Written? ==> ParseStrict(out.pkt).Some? && Permit(cfg, t', e, now, KeyOf(ParseStrict(out.pkt).value))
    ensures WrittenOk(cfg, t, e, now, out)
  {
    hide Permit, ParseStrict, KeyOf, Evolves;
    if out.Written? {
      PermitBefore(cfg, t, t', e, now, KeyOf(ParseStrict(out.pkt).value));
    }
  }

  /** Everything about one datagram: who can have sent it, in time, and what it changes. */
  lemma HandleEvolves<E, A>(cfg: Config, t: Tables<E, A>, src: A, now: int, payload: Option<seq<seq<byte>>>)
    requires Known(t)
    ensures Known(Handle(cfg, t, src, now, payload).0)
    ensures src in t.bySrc ==> Evolves(cfg, t, Handle(cfg, t, src, now, payload).0, t.bySrc[src], now)
    ensures src !in t.bySrc ==> Handle(cfg, t, src, now, payload).0 == t
    ensures forall out <- Handle(cfg, t, src, now, payload).1 :: out.Written? ==>
              src in t.bySrc && now < t.sessions[t.bySrc[src]].deadline && WrittenOk(cfg, t, t.bySrc[src], now, out)
  {
    hide AllowedIn, ForwardAll, Permit, ParseStrict, KeyOf;
    if src in t.bySrc && t.sessions[t.bySrc[src]].deadline > now && payload.Some? {
      ForwardAllEvolves(cfg, t, t.bySrc[src], now, payload.value);
    }
  }

  // ---- Every session's credential was verified ----

  /** Event g verified the claims in handshake h for the tenant, and they were not revoked then. */
  ghost predicate VerifiedAt<E, A>(cfg: Config, es: seq<Event<E, A>>, g: nat, h: nat, tenant: Name, claims: Claims) {
    && g < |es| && es[g] == Verified(h, tenant, Some(claims)) && claims.tenant == tenant
    && !IsRevoked(Run(cfg, es[..g]).cfg, tenant, claims.jti)
  }

  ghost predicate HasVerified<E, A>(cfg: Config, es: seq<Event<E, A>>, h: nat, s: Handshake) {
    exists g: nat :: VerifiedAt(cfg, es, g, h, s.tenant, s.claims)
  }

  lemma StillVerified<E, A>(cfg: Config, es: seq<Event<E, A>>, n: nat, h: nat, s: Handshake)
    requires n <= |es| && HasVerified(cfg, es[..n], h, s)
    ensures exists g: nat :: g < n && VerifiedAt(cfg, es, g, h, s.tenant, s.claims)
  {
    hide Run, IsRevoked;
    var g: nat :| VerifiedAt(cfg, es[..n], g, h, s.tenant, s.claims);
    Cut(es, n, g);
    assert VerifiedAt(cfg, es, g, h, s.tenant, s.claims);
  }

  /** What one step does to the handshakes under way. */
  lemma ShakeStep<E, A>(w: World<E, A>, ev: Event<E, A>, h: nat)
    requires Known(w.t) && h in Step(w, ev).shakes
    ensures var s := Step(w, ev).shakes[h];
      (h in w.shakes && w.shakes[h] == s)
      || (ev == Verified(h, s.tenant, Some(s.claims)) && s.claims.tenant == s.tenant
          && !IsRevoked(w.cfg, s.tenant, s.claims.jti))
  {
    hide Establish, Handle, Proxy, EvictAll, IsRevoked;
  }

  /** A handshake only goes on with claims that were verified in it. */
  lemma {:induction false} ShakesVerified<E, A>(cfg: Config, es: seq<Event<E, A>>, h: nat)
    ensures h in Run(cfg, es).shakes ==> HasVerified(cfg, es, h, Run(cfg, es).shakes[h])
  {
    if es != [] && h in Run(cfg, es).shakes {
      hide Step, IsRevoked, VerifiedAt;
      var n := |es| - 1;
      var w := Run(cfg, es[..n]);
      ShakesVerified(cfg, es[..n], h);
      ShakeStep(w, es[n], h);
      var s := Run(cfg, es).shakes[h];
      if h in w.shakes && w.shakes[h] == s {
        StillVerified(cfg, es, n, h, s);
      } else {
        VerifiedNow(cfg, es, h, s);
      }
    }
  }

  lemma VerifiedNow<E, A>(cfg: Config, es: seq<Event<E, A>>, h: nat, s: Handshake)
    requires es != [] && es[|es| - 1] == Verified(h, s.tenant, Some(s.claims)) && s.claims.tenant == s.tenant
    requires !IsRevoked(Run(cfg, es[..|es| - 1]).cfg, s.tenant, s.claims.jti)
    ensures HasVerified(cfg, es, h, s)
  {
    hide Run, IsRevoked;
    assert VerifiedAt(cfg, es, |es| - 1, h, s.tenant, s.claims);
  }

  // ---- Every write is justified ----

  /** Event i registered the session at the end of a handshake for its tenant and claims, with this deadline. */
  ghost predicate EstablishedAt<E, A>(cfg: Config, es: seq<Event<E, A>>, i: nat, e: E, s: Term<A>) {
    && i < |es| && es[i].Established? && es[i].e == e && es[i].ok && es[i].src == s.src
    && es[i].h in Run(cfg, es[..i]).shakes && Run(cfg, es[..i]).shakes[es[i].h] == Handshake(s.tenant, s.claims)
    && s.tenant == s.claims.tenant
    && s.deadline == ComputeDeadline(Run(cfg, es[..i]).cfg, s.claims, es[i].now)
  }

  /** Event j was a datagram, when the session's flow to dst was allowed by the tables of that moment. */
  ghost predicate AllowedAt<E, A>(cfg: Config, es: seq<Event<E, A>>, j: nat, e: E, key: Tuple5) {
    j < |es| && es[j].Datagram? && AllowedIn(Run(cfg, es[..j]).cfg, Run(cfg, es[..j]).t, e, key.dst, key.dstPort)
  }

  ghost predicate Registered<E, A>(cfg: Config, es: seq<Event<E, A>>, e: E, s: Term<A>) {
    exists i: nat :: EstablishedAt(cfg, es, i, e, s)
  }

  ghost predicate FlowJustified<E, A>(cfg: Config, es: seq<Event<E, A>>, e: E, key: Tuple5, expire: int) {
    exists j: nat :: AllowedAt(cfg, es, j, e, key) && expire == es[j].now + FLOW_CACHE_TTL
  }

  ghost predicate SessionInv<E, A>(cfg: Config, es: seq<Event<E, A>>, e: E, s: Term<A>) {
    && Registered(cfg, es, e, s)
    && (forall key <- s.flows :: s.flows[key].allow ==> FlowJustified(cfg, es, e, key, s.flows[key].expire))
  }

  ghost predicate RunInv<E, A>(cfg: Config, es: seq<Event<E, A>>) {
    forall e <- Run(cfg, es).t.sessions :: SessionInv(cfg, es, e, Run(cfg, es).t.sessions[e])
  }

  lemma Cut<T>(s: seq<T>, n: nat, j: nat)
    requires j <= n <= |s|
    ensures s[..n][..j] == s[..j]
  {
  }

  /** A longer run justifies what a shorter one did. */
  lemma StillRegistered<E, A>(cfg: Config, es: seq<Event<E, A>>, n: nat, e: E, s: Term<A>)
    requires n <= |es| && Registered(cfg, es[..n], e, s)
    ensures Registered(cfg, es, e, s)
    ensures exists i: nat :: i < n && EstablishedAt(cfg, es, i, e, s)
  {
    hide Run, ComputeDeadline;
    var i: nat :| EstablishedAt(cfg, es[..n], i, e, s);
    Cut(es, n, i);
    assert EstablishedAt(cfg, es, i, e, s);
  }

  /** A registered session's claims had been verified in the same handshake before. */
  lemma WasVerified<E, A>(cfg: Config, es: seq<Event<E, A>>, n: nat, e: E, s: Term<A>)
    requires n <= |es| && Registered(cfg, es[..n], e, s)
    ensures exists i: nat, g: nat :: g < i < n && EstablishedAt(cfg, es, i, e, s)
              && VerifiedAt(cfg, es, g, es[i].h, s.tenant, s.claims)
  {
    hide Run, ComputeDeadline, VerifiedAt;
    StillRegistered(cfg, es, n, e, s);
    var i: nat :| i < n && EstablishedAt(cfg, es, i, e, s);
    ShakesVerified(cfg, es[..i], es[i].h);
    StillVerified(cfg, es, i, es[i].h, Handshake(s.tenant, s.claims));
  }

  lemma StillFlow<E, A>(cfg: Config, es: seq<Event<E, A>>, n: nat, e: E, key: Tuple5, expire: int)
    requires n <= |es| && FlowJustified(cfg, es[..n], e, key, expire)
    ensures FlowJustified(cfg, es, e, key, expire)
    ensures exists j: nat :: j < n && AllowedAt(cfg, es, j, e, key) && expire == es[j].now + FLOW_CACHE_TTL
  {
    hide Run, AllowedIn;
    var j: nat :| AllowedAt(cfg, es[..n], j, e, key) && expire == es[..n][j].now + FLOW_CACHE_TTL;
    Cut(es, n, j);
    assert AllowedAt(cfg, es, j, e, key);
  }

  lemma StillJustified<E, A>(cfg: Config, es: seq<Event<E, A>>, e: E, s: Term<A>)
    requires es != [] && SessionInv(cfg, es[..|es| - 1], e, s)
    ensures SessionInv(cfg, es, e, s)
  {
    hide Run, Registered, FlowJustified;
    StillRegistered(cfg, es, |es| - 1, e, s);
    forall key <- s.flows | s.flows[key].allow ensures FlowJustified(cfg, es, e, key, s.flows[key].expire) {
      StillFlow(cfg, es, |es| - 1, e, key, s.flows[key].expire);
    }
  }

  lemma NewSession<E, A>(cfg: Config, es: seq<Event<E, A>>, e: E)
    requires es != [] && es[|es| - 1].Established? && es[|es| - 1].e == e
    requires es[|es| - 1].h in Run(cfg, es[..|es| - 1]).shakes
    requires e !in Run(cfg, es[..|es| - 1]).t.sessions && e in Run(cfg, es).t.sessions
    ensures SessionInv(cfg, es, e, Run(cfg, es).t.sessions[e])
  {
    hide DropInnerIPs, ComputeDeadline;
    assert EstablishedAt(cfg, es, |es| - 1, e, Run(cfg, es).t.sessions[e]);
  }

  lemma SameRegistered<E, A>(cfg: Config, es: seq<Event<E, A>>, e: E, s: Term<A>, s': Term<A>)
    requires Registered(cfg, es, e, s) && SameIdentity(s, s')
    ensures Registered(cfg, es, e, s')
  {
    hide Run, ComputeDeadline;
    var i: nat :| EstablishedAt(cfg, es, i, e, s);
    assert EstablishedAt(cfg, es, i, e, s');
  }

  /** A session after a datagram of its own or of another session. */
  lemma AfterDatagram<E, A>(cfg: Config, es: seq<Event<E, A>>, w: World<E, A>, t': Tables<E, A>, x: E)
    requires es != [] && es[|es| - 1].Datagram? && w == Run(cfg, es[..|es| - 1])
    requires var ev := es[|es| - 1];
      ev.src in w.t.bySrc && Evolves(w.cfg, w.t, t', w.t.bySrc[ev.src], ev.now)
    requires x in w.t.sessions && SessionInv(cfg, es[..|es| - 1], x, w.t.sessions[x])
    ensures x in t'.sessions && SessionInv(cfg, es, x, t'.sessions[x])
  {
    hide Run, AllowedIn, ComputeDeadline, Registered, FlowJustified;
    var k := |es| - 1;
    var s, s' := w.t.sessions[x], t'.sessions[x];
    StillJustified(cfg, es, x, s);
    SameRegistered(cfg, es, x, s, s');
    forall key <- s'.flows | s'.flows[key].allow ensures FlowJustified(cfg, es, x, key, s'.flows[key].expire) {
      assert FlowFrom(w.cfg, w.t, t', w.t.bySrc[es[k].src], es[k].now, x, key);
      if !(key in s.flows && s'.flows[key] == s.flows[key]) {
        NewFlow(cfg, es, w, x, key);
      }
    }
  }

  lemma NewFlow<E, A>(cfg: Config, es: seq<Event<E, A>>, w: World<E, A>, e: E, key: Tuple5)
    requires es != [] && es[|es| - 1].Datagram? && w == Run(cfg, es[..|es| - 1])
    requires AllowedIn(w.cfg, w.t, e, key.dst, key.dstPort)
    ensures FlowJustified(cfg, es, e, key, es[|es| - 1].now + FLOW_CACHE_TTL)
  {
    hide Run, AllowedIn;
    assert AllowedAt(cfg, es, |es| - 1, e, key);
  }

  lemma SameSessions<E, A>(w: World<E, A>, ev: Event<E, A>)
    requires Known(w.t) && !ev.Datagram?
    ensures forall e <- Step(w, ev).t.sessions ::
              (e in w.t.sessions && Step(w, ev).t.sessions[e] == w.t.sessions[e])
              || (ev.Established? && ev.e == e && e !in w.t.sessions && ev.h in w.shakes)
    ensures w.t.sessions.Keys <= Step(w, ev).t.sessions.Keys
  {
    hide DropInnerIPs, ComputeDeadline, RevokedOf, ExpiredAt, DecideResource, VerifyCred;
  }

  /** The sessions after the last event: each is an older one, evolved by a datagram at most, or was just registered. */
  lemma AfterEvent<E, A>(cfg: Config, es: seq<Event<E, A>>, e: E)
    requires es != [] && e in Run(cfg, es).t.sessions
    requires var w := Run(cfg, es[..|es| - 1]);
      e in w.t.sessions ==> SessionInv(cfg, es[..|es| - 1], e, w.t.sessions[e])
    ensures SessionInv(cfg, es, e, Run(cfg, es).t.sessions[e])
  {
    hide SessionInv;
    var w, ev := Run(cfg, es[..|es| - 1]), es[|es| - 1];
    assert Run(cfg, es) == Step(w, ev);
    if ev.Datagram? {
      assert Run(cfg, es).t == Handle(w.cfg, w.t, ev.src, ev.now, ev.payload).0;
      hide Run, Step, Handle, Evolves;
      HandleEvolves(w.cfg, w.t, ev.src, ev.now, ev.payload);
      if ev.src in w.t.bySrc {
        SameKeys(w.cfg, w.t, Run(cfg, es).t, w.t.bySrc[ev.src], ev.now);
        AfterDatagram(cfg, es, w, Run(cfg, es).t, e);
      } else {
        StillJustified(cfg, es, e, w.t.sessions[e]);
      }
    } else {
      hide Run, Step;
      SameSessions(w, ev);
      if e in w.t.sessions {
        StillJustified(cfg, es, e, w.t.sessions[e]);
      } else {
        NewSession(cfg, es, e);
      }
    }
  }

  lemma SameKeys<E, A>(cfg: Config, t: Tables<E, A>, t': Tables<E, A>, e: E, now: int)
    requires Evolves(cfg, t, t', e, now)
    ensures t'.sessions.Keys == t.sessions.Keys
  {
  }

  lemma {:induction false} RunIsJustified<E, A>(cfg: Config, es: seq<Event<E, A>>)
    ensures RunInv(cfg, es)
  {
    if es != [] {
      hide SessionInv, Step;
      RunIsJustified(cfg, es[..|es| - 1]);
      forall e <- Run(cfg, es).t.sessions ensures SessionInv(cfg, es, e, Run(cfg, es).t.sessions[e]) {
        AfterEvent(cfg, es, e);
      }
    }
  }

  /**
   * Every packet written to the TUN, in every run: it came to the address of a session that was registered after its
   * credential had been verified for the same tenant; it came before the deadline fixed then; and less than 30 seconds
   * earlier the destination of its flow resolved in the session's own tenant, its credential was not revoked and the
   * policy did not deny it.
   */
  lemma WritesAreJustified<E, A>(cfg: Config, es: seq<Event<E, A>>, k: nat, out: Outcome)
    requires k < |es| && es[k].Datagram? && out in Outcomes(cfg, es, k) && out.Written?
    ensures ParseStrict(out.pkt).Some? && es[k].src in Run(cfg, es[..k]).t.bySrc
    ensures var t := Run(cfg, es[..k]).t;
      var e := t.bySrc[es[k].src];
      var key := KeyOf(ParseStrict(out.pkt).value);
      && (exists i: nat, g: nat :: g < i < k && EstablishedAt(cfg, es, i, e, t.sessions[e])
                                   && VerifiedAt(cfg, es, g, es[i].h, t.sessions[e].tenant, t.sessions[e].claims))
      && es[k].now < t.sessions[e].deadline
      && (exists j: nat :: j <= k && AllowedAt(cfg, es, j, e, key) && es[k].now < es[j].now + 30_000_000_000)
  {
    hide AllowedIn, ComputeDeadline, Handle, Run, ParseStrict, KeyOf, Registered, FlowJustified, Evolves, VerifiedAt;
    hide EstablishedAt;
    var w, ev := Run(cfg, es[..k]), es[k];
    HandleEvolves(w.cfg, w.t, ev.src, ev.now, ev.payload);
    var e := w.t.bySrc[ev.src];
    var key := KeyOf(ParseStrict(out.pkt).value);
    RunIsJustified(cfg, es[..k]);
    var s := w.t.sessions[e];
    assert SessionInv(cfg, es[..k], e, s);
    WasVerified(cfg, es, k, e, s);
    if AllowedIn(w.cfg, w.t, e, key.dst, key.dstPort) {
      assert AllowedAt(cfg, es, k, e, key);
    } else {
      StillFlow(cfg, es, k, e, key, s.flows[key].expire);
    }
  }

  /**
   * The other way round: a packet of a live session whose flow has no live verdict, whose destination resolves and
   * whose credential is not revoked is written when the policy lets it through, and dropped when no rule catches it or
   * the first that does denies it.
   */
  lemma NewFlowIsDecided<E, A>(cfg: Config, es: seq<Event<E, A>>, k: nat, pkt: seq<byte>, app: Name)
    requires k < |es| && es[k].Datagram? && es[k].payload == Some([pkt]) && ParseStrict(pkt).Some?
    requires var w := Run(cfg, es[..k]);
      && es[k].src in w.t.bySrc
      && var s := w.t.sessions[w.t.bySrc[es[k].src]];
         var tup := ParseStrict(pkt).value;
         && es[k].now < s.deadline
         && (KeyOf(tup) in s.flows ==> s.flows[KeyOf(tup)].expire <= es[k].now)
         && Resolve(w.cfg.apps, s.tenant, tup.dst, tup.dstPort) == Some(app)
         && !(s.tenant in w.cfg.revoked && s.claims.jti in w.cfg.revoked[s.tenant])
    ensures var w := Run(cfg, es[..k]);
      var s := w.t.sessions[w.t.bySrc[es[k].src]];
      Outcomes(cfg, es, k) == [if PolicyLets(w.cfg, s.tenant, s.claims, app) then Written(pkt) else Dropped(PepDeny)]
  {
    hide Run, ParseStrict, KeyOf, Resolve, PolicyLets, PepAllows;
    var w := Run(cfg, es[..k]);
    var e := w.t.bySrc[es[k].src];
    assert [pkt][..0] == [];
    assert ForwardAll(w.cfg, w.t, e, es[k].now, []) == (w.t, []);
    LearnKeeps(w.t, e, ParseStrict(pkt).value.src);
    PepAllowsMeaning(w.cfg, w.t.sessions[e].claims, w.t.sessions[e].tenant, app);
    hide Learn;
    assert Forward(w.cfg, w.t, e, es[k].now, pkt).1
        == if PolicyLets(w.cfg, w.t.sessions[e].tenant, w.t.sessions[e].claims, app) then Written(pkt)
           else Dropped(PepDeny);
  }

  /**
   * One decision: a verdict holds for 30 seconds, after which the flow is looked up again; a new one is stored with
   * what the policy says now, and nothing else changes.
   */
  lemma FlowDecision<E, A>(cfg: Config, t: Tables<E, A>, e: E, now: int, tup: Tuple5)
    requires e in t.sessions
    ensures var s := t.sessions[e];
      var key := KeyOf(tup);
      var app := Resolve(cfg.apps, s.tenant, tup.dst, tup.dstPort);
      var revoked := s.tenant in cfg.revoked && s.claims.jti in cfg.revoked[s.tenant];
      var (t', reason) := TerminatorState.Decide(cfg, t, e, now, tup);
      && (key in s.flows && now < s.flows[key].expire ==>
            t' == t && reason == (if s.flows[key].allow then None else Some(PepDeny)))
      && (!(key in s.flows && now < s.flows[key].expire) ==>
            && (app.None? ==> t' == t && reason == Some(NoApp))
            && (app.Some? && revoked ==>
                  && reason == Some(Revoked) && t'.sessions == t.sessions
                  && !(s.src in t'.bySrc && t'.bySrc[s.src] == e)
                  && (forall src :: src != s.src ==> (src in t'.bySrc <==> src in t.bySrc)))
            && (app.Some? && !revoked ==>
                  var allow := PolicyLets(cfg, s.tenant, s.claims, app.value);
                  && reason == (if allow then None else Some(PepDeny))
                  && t' == t.(sessions := t.sessions[e := s.(flows :=
                                s.flows[key := Verdict(allow, now + 30_000_000_000)])])))
  {
    hide KeyOf, Resolve, PepAllows, PolicyLets;
    var app := Resolve(cfg.apps, t.sessions[e].tenant, tup.dst, tup.dstPort);
    if app.Some? {
      PepAllowsMeaning(cfg, t.sessions[e].claims, t.sessions[e].tenant, app.value);
    }
  }

  lemma LearnKeeps<E, A>(t: Tables<E, A>, e: E, ip: Ip)
    requires e in t.sessions
    ensures var s := Learn(t, e, ip).sessions[e];
      SameIdentity(t.sessions[e], s) && s.flows == t.sessions[e].flows
  {
    hide Canon;
  }

  /** The deadline is never past the credential's own expiry, in seconds, nor past the cap. */
  lemma DeadlineIsMinimum(cfg: Config, c: Claims, now: int)
    ensures ComputeDeadline(cfg, c, now) <= now + cfg.cap
    ensures c.expireAt > 0 ==> ComputeDeadline(cfg, c, now) <= c.expireAt * 1_000_000_000
    ensures ComputeDeadline(cfg, c, now) == now + cfg.cap
            || (c.expireAt > 0 && ComputeDeadline(cfg, c, now) == c.expireAt * 1_000_000_000)
  {
  }

  /** The cap of a terminator set up without one is an hour. */
  lemma CapMeaning(configured: int)
    ensures SessionCap(configured) == if configured <= 0 then 3600 * 1_000_000_000 else configured
  {
  }

  // ---- Revocation is final ----

  ghost predicate Holds<A>(s: Term<A>, tenant: Name, jti: Name) {
    s.tenant == tenant && s.claims.jti == jti
  }

  /** No reachable session with this credential has an allowing verdict. */
  ghost predicate Silenced<E, A>(t: Tables<E, A>, tenant: Name, jti: Name)
    requires Known(t)
  {
    forall src <- t.bySrc, key <- t.sessions[t.bySrc[src]].flows :: Holds(t.sessions[t.bySrc[src]], tenant, jti) ==>
      !t.sessions[t.bySrc[src]].flows[key].allow
  }

  lemma EvictionSilences<E, A>(cfg: Config, t: Tables<E, A>, tenant: Name, jti: Name)
    requires Known(t) && IsRevoked(cfg, tenant, jti)
    ensures Silenced(EvictAll(t, RevokedOf(cfg, t, tenant)), tenant, jti)
  {
    hide IsRevoked;
  }

  lemma DatagramStaysSilent<E, A>(cfg: Config, t: Tables<E, A>, t': Tables<E, A>, e: E, now: int, tenant: Name,
                                  jti: Name)
    requires Known(t) && Known(t') && Silenced(t, tenant, jti) && IsRevoked(cfg, tenant, jti)
    requires Evolves(cfg, t, t', e, now)
    ensures Silenced(t', tenant, jti)
  {
    hide IsRevoked, Resolve, PolicyLets;
    forall src <- t'.bySrc, key <- t'.sessions[t'.bySrc[src]].flows | Holds(t'.sessions[t'.bySrc[src]], tenant, jti)
      ensures !t'.sessions[t'.bySrc[src]].flows[key].allow
    {
      var x := t'.bySrc[src];
      assert SameIdentity(t.sessions[x], t'.sessions[x]);
      assert t'.sessions[x].flows[key].allow ==> FlowFrom(cfg, t, t', e, now, x, key);
    }
  }

  lemma EstablishStaysSilent<E, A>(w: World<E, A>, ev: Event<E, A>, tenant: Name, jti: Name)
    requires Known(w.t) && Silenced(w.t, tenant, jti) && ev.Established?
    ensures Silenced(Step(w, ev).t, tenant, jti)
  {
    hide DropInnerIPs, ComputeDeadline;
  }

  lemma StepStaysSilent<E, A>(w: World<E, A>, ev: Event<E, A>, tenant: Name, jti: Name)
    requires Known(w.t) && Silenced(w.t, tenant, jti) && IsRevoked(w.cfg, tenant, jti)
    ensures Silenced(Step(w, ev).t, tenant, jti)
  {
    hide Handle, Establish, DropInnerIPs, IsRevoked, RevokedOf, ExpiredAt, PepAllows;
    if ev.Datagram? {
      HandleEvolves(w.cfg, w.t, ev.src, ev.now, ev.payload);
      if ev.src in w.t.bySrc {
        hide Silenced, Evolves;
        DatagramStaysSilent(w.cfg, w.t, Step(w, ev).t, w.t.bySrc[ev.src], ev.now, tenant, jti);
      }
    } else if ev.Established? {
      hide Silenced;
      EstablishStaysSilent(w, ev, tenant, jti);
    }
  }

  lemma {:induction false} SilentSince<E, A>(cfg: Config, es: seq<Event<E, A>>, i: nat, k: nat, tenant: Name, jti: Name)
    requires i < k <= |es| && es[i] == Event.EvictRevoked(tenant)
    requires forall m :: i <= m < k ==> IsRevoked(Run(cfg, es[..m]).cfg, tenant, jti)
    ensures Silenced(Run(cfg, es[..k]).t, tenant, jti)
    decreases k
  {
    hide Silenced, IsRevoked;
    var w := Run(cfg, es[..k - 1]);
    assert es[..k][..k - 1] == es[..k - 1];
    assert Run(cfg, es[..k]) == Step(w, es[k - 1]);
    assert IsRevoked(Run(cfg, es[..k - 1]).cfg, tenant, jti);
    if i == k - 1 {
      EvictionSilences(w.cfg, w.t, tenant, jti);
    } else {
      SilentSince(cfg, es, i, k - 1, tenant, jti);
      hide Step;
      StepStaysSilent(w, es[k - 1], tenant, jti);
    }
  }

  /**
   * Once EvictRevoked has run for a revoked credential, and while the credential stays revoked, no session that holds
   * it writes to the TUN, even one registered afterwards.
   */
  lemma RevocationIsFinal<E, A>(cfg: Config, es: seq<Event<E, A>>, i: nat, k: nat, tenant: Name, jti: Name)
    requires i < k < |es| && es[i] == Event.EvictRevoked(tenant) && es[k].Datagram?
    requires forall m :: i <= m <= k ==> IsRevoked(Run(cfg, es[..m]).cfg, tenant, jti)
    requires var t := Run(cfg, es[..k]).t;
      es[k].src in t.bySrc && Holds(t.sessions[t.bySrc[es[k].src]], tenant, jti)
    ensures forall out <- Outcomes(cfg, es, k) :: !out.Written?
  {
    hide Handle, Run, ParseStrict, KeyOf, Evolves, IsRevoked, Resolve, PolicyLets;
    SilentSince(cfg, es, i, k, tenant, jti);
    var w, ev := Run(cfg, es[..k]), es[k];
    HandleEvolves(w.cfg, w.t, ev.src, ev.now, ev.payload);
    assert IsRevoked(Run(cfg, es[..k]).cfg, tenant, jti);
  }

  /**
   * The case this is about: a credential is verified, then revoked and evicted, and only then its handshake ends.
   * The session is registered all the same.
   */
  lemma RevokedMayRegister<E, A>(cfg: Config, claims: Claims, e: E, src: A, now: int)
    requires !IsRevoked(cfg, claims.tenant, claims.jti)
    ensures var es := [Verified(0, claims.tenant, Some(claims)), SetRevoked(claims.tenant, {claims.jti}),
                       Event.EvictRevoked(claims.tenant), Established(0, e, src, true, now)];
      var w := Run(cfg, es);
      && IsRevoked(w.cfg, claims.tenant, claims.jti)
      && src in w.t.bySrc && Holds(w.t.sessions[w.t.bySrc[src]], claims.tenant, claims.jti)
  {
    hide ComputeDeadline, RevokedOf;
    var es: seq<Event<E, A>> := [Verified(0, claims.tenant, Some(claims)), SetRevoked(claims.tenant, {claims.jti}),
                                 Event.EvictRevoked(claims.tenant), Established(0, e, src, true, now)];
    assert es[..1][..0] == [] && es[..2][..1] == es[..1] && es[..3][..2] == es[..2];
    var w0 := World(cfg, EmptyTables<E, A>(), map[]);
    assert Run(cfg, es[..1][..0]) == w0;
    var w1 := Run(cfg, es[..1]);
    assert w1 == Step(w0, es[0]);
    assert w1 == World(cfg, EmptyTables(), map[0 := Handshake(claims.tenant, claims)]);
    var w2 := Run(cfg, es[..2]);
    assert w2 == Step(w1, es[1]);
    var w3 := Run(cfg, es[..3]);
    assert w3 == Step(w2, es[2]) && w3.t.sessions == map[];
    assert Run(cfg, es) == Step(w3, es[3]);
  }

  /** Every session of a run was registered after its credential was verified for its tenant and not revoked then. */
  lemma SessionsWereVerified<E, A>(cfg: Config, es: seq<Event<E, A>>, e: E)
    requires e in Run(cfg, es).t.sessions
    ensures var s := Run(cfg, es).t.sessions[e];
      exists i: nat, g: nat :: g < i < |es| && EstablishedAt(cfg, es, i, e, s)
        && VerifiedAt(cfg, es, g, es[i].h, s.tenant, s.claims)
  {
    hide Run, EstablishedAt, VerifiedAt, Registered, FlowJustified;
    RunIsJustified(cfg, es);
    assert SessionInv(cfg, es, e, Run(cfg, es).t.sessions[e]);
    assert es[..|es|] == es;
    WasVerified(cfg, es, |es|, e, Run(cfg, es).t.sessions[e]);
  }

  // ---- Return routes ----

  /** Every return route is one the session it leads to has on its own list, so that eviction finds it. */
  ghost predicate Indexed<E, A>(t: Tables<E, A>) {
    forall ip <- t.byInner :: t.byInner[ip] in t.sessions && ip in t.sessions[t.byInner[ip]].innerIPs
  }

  lemma LearnIndexed<E, A>(t: Tables<E, A>, e: E, ip: Ip)
    requires e in t.sessions && Indexed(t)
    ensures Indexed(Learn(t, e, ip))
  {
    hide Canon;
  }

  lemma DecideIndexed<E, A>(cfg: Config, t: Tables<E, A>, e: E, now: int, tup: Tuple5)
    requires e in t.sessions && Indexed(t)
    ensures Indexed(TerminatorState.Decide(cfg, t, e, now, tup).0)
  {
    hide Resolve, IsRevoked, PepAllows, KeyOf;
  }

  lemma ForwardIndexed<E, A>(cfg: Config, t: Tables<E, A>, e: E, now: int, pkt: seq<byte>)
    requires e in t.sessions && Indexed(t)
    ensures Indexed(Forward(cfg, t, e, now, pkt).0)
  {
    hide ParseStrict, Indexed, Learn, TerminatorState.Decide;
    var tup := ParseStrict(pkt);
    if tup.Some? {
      LearnIndexed(t, e, tup.value.src);
      DecideIndexed(cfg, Learn(t, e, tup.value.src), e, now, tup.value);
    }
  }

  lemma {:induction false} ForwardAllIndexed<E, A>(cfg: Config, t: Tables<E, A>, e: E, now: int, pkts: seq<seq<byte>>)
    requires e in t.sessions && Indexed(t)
    ensures Indexed(ForwardAll(cfg, t, e, now, pkts).0)
  {
    if pkts != [] {
      hide Forward, Indexed;
      var n := |pkts| - 1;
      ForwardAllIndexed(cfg, t, e, now, pkts[..n]);
      ForwardIndexed(cfg, ForwardAll(cfg, t, e, now, pkts[..n]).0, e, now, pkts[n]);
    }
  }

  lemma StepIndexed<E, A>(w: World<E, A>, ev: Event<E, A>)
    requires Known(w.t) && Indexed(w.t)
    ensures Indexed(Step(w, ev).t)
  {
    hide ForwardAll, IsRevoked, PepAllows, ComputeDeadline, RevokedOf, ExpiredAt, Canon;
    if ev.Datagram? && ev.src in w.t.bySrc && ev.payload.Some? {
      ForwardAllIndexed(w.cfg, w.t, w.t.bySrc[ev.src], ev.now, ev.payload.value);
    }
  }

  lemma {:induction false} RunIndexed<E, A>(cfg: Config, es: seq<Event<E, A>>)
    ensures Indexed(Run(cfg, es).t)
  {
    if es != [] {
      hide Step;
      RunIndexed(cfg, es[..|es| - 1]);
      StepIndexed(Run(cfg, es[..|es| - 1]), es[|es| - 1]);
    }
  }

  /** Eviction ends both directions: no address leads to the session any more, and no other session loses anything. */
  lemma EvictionIsComplete<E, A>(cfg: Config, es: seq<Event<E, A>>, src: A)
    requires src in Run(cfg, es).t.bySrc
    ensures var t := Run(cfg, es).t;
      var t' := Evict(t, src, t.bySrc[src]);
      && t'.bySrc == t.bySrc - {src}
      && (forall ip :: ip in t'.byInner <==> ip in t.byInner && t.byInner[ip] != t.bySrc[src])
      && (forall ip <- t'.byInner :: t'.byInner[ip] == t.byInner[ip])
  {
    hide Run;
    RunIndexed(cfg, es);
  }

  /** A session that takes another one's address takes all of it: no return route leads to the old session any more. */
  lemma ReplacementIsComplete<E, A>(cfg: Config, es: seq<Event<E, A>>, h: nat, e: E, src: A, now: int)
    requires var w := Run(cfg, es);
      h in w.shakes && w.shakes[h].claims.tenant == w.shakes[h].tenant && e !in w.t.sessions && src in w.t.bySrc
    ensures var t, t' := Run(cfg, es).t, Run(cfg, es + [Established(h, e, src, true, now)]).t;
      && t'.bySrc == t.bySrc[src := e]
      && (forall ip :: ip in t'.byInner <==> ip in t.byInner && t.byInner[ip] != t.bySrc[src])
      && (forall ip <- t'.byInner :: t'.byInner[ip] == t.byInner[ip])
  {
    hide Run, ComputeDeadline;
    RunIndexed(cfg, es);
    RunAfter(cfg, es, Established(h, e, src, true, now));
  }

  lemma RunAfter<E, A>(cfg: Config, es: seq<Event<E, A>>, ev: Event<E, A>)
    ensures Run(cfg, es + [ev]) == Step(Run(cfg, es), ev)
  {
    hide Step;
    assert (es + [ev])[..|es|] == es;
  }

  /** An inner address that a session shows for the first time gets its return traffic, whoever had it before. */
  lemma LearnMeaning<E, A>(t: Tables<E, A>, e: E, ip: Ip)
    requires e in t.sessions
    ensures var t' := Learn(t, e, ip);
      && Canon(ip) in t'.sessions[e].innerIPs
      && (if Canon(ip) in t.sessions[e].innerIPs then t' == t
          else t'.byInner == t.byInner[Canon(ip) := e]
               && t'.sessions[e].innerIPs == t.sessions[e].innerIPs + {Canon(ip)})
  {
    hide Canon;
  }

  /** At or past its deadline a session forwards nothing and is gone with the first datagram. */
  lemma ExpiredIsEvicted<E, A>(cfg: Config, es: seq<Event<E, A>>, k: nat)
    requires k < |es| && es[k].Datagram? && es[k].src in Run(cfg, es[..k]).t.bySrc
    requires var t := Run(cfg, es[..k]).t; t.sessions[t.bySrc[es[k].src]].deadline <= es[k].now
    ensures Outcomes(cfg, es, k) == [Dropped(Expired)]
    ensures es[k].src !in Run(cfg, es[..k + 1]).t.bySrc
  {
    hide Run, DropInnerIPs, ForwardAll;
    assert es[..k + 1] == es[..k] + [es[k]];
    RunAfter(cfg, es[..k], es[k]);
  }

  /** A sweep leaves exactly the sessions whose deadline is still ahead. */
  lemma SweepExactly<E, A>(cfg: Config, es: seq<Event<E, A>>, now: int)
    ensures var t, t' := Run(cfg, es).t, Run(cfg, es + [Sweep(now)]).t;
      && (forall src :: src in t'.bySrc <==> src in t.bySrc && now < t.sessions[t.bySrc[src]].deadline)
      && (forall src <- t'.bySrc :: t'.bySrc[src] == t.bySrc[src])
  {
    hide Run;
    RunAfter(cfg, es, Sweep(now));
  }

  /** Evicting the revoked of a tenant leaves exactly the sessions of others and those not revoked. */
  lemma EvictRevokedExactly<E, A>(cfg: Config, es: seq<Event<E, A>>, tenant: Name)
    ensures var w, t' := Run(cfg, es), Run(cfg, es + [Event.EvictRevoked(tenant)]).t;
      && (forall src :: src in t'.bySrc <==>
            src in w.t.bySrc
            && var s := w.t.sessions[w.t.bySrc[src]];
               !(s.tenant == tenant && tenant in w.cfg.revoked && s.claims.jti in w.cfg.revoked[tenant]))
      && (forall src <- t'.bySrc :: t'.bySrc[src] == w.t.bySrc[src])
  {
    hide Run;
    RunAfter(cfg, es, Event.EvictRevoked(tenant));
  }

  /** A connection to the proxy evicts the session it comes from when that is over or revoked, and nothing else. */
  lemma ProxiedExactly<E, A>(cfg: Config, es: seq<Event<E, A>>, ip: Ip, now: int, app: Option<Name>)
    ensures var w, t' := Run(cfg, es), Run(cfg, es + [Proxied(ip, now, app)]).t;
      if Canon(ip) !in w.t.byInner then t' == w.t else
      var e := w.t.byInner[Canon(ip)];
      var s := w.t.sessions[e];
      var revoked := s.tenant in w.cfg.revoked && s.claims.jti in w.cfg.revoked[s.tenant];
      if s.deadline <= now || (app.Some? && revoked)
      then t'.sessions == w.t.sessions && (forall src :: src in t'.bySrc <==>
             src in w.t.bySrc && !(src == s.src && w.t.bySrc[src] == e))
      else t' == w.t
  {
    hide Run, Canon, PepAllows, DropInnerIPs;
    RunAfter(cfg, es, Proxied(ip, now, app));
  }

  /** The bundle and the revocations that a run goes by are those set last. */
  lemma {:induction false} ConfigIsLatest<E, A>(cfg: Config, es: seq<Event<E, A>>, k: nat)
    requires k < |es|
    ensures (es[k].SetBundle? && forall m :: k < m < |es| ==> !(es[m].SetBundle? && es[m].tenant == es[k].tenant)) ==>
              es[k].tenant in Run(cfg, es).cfg.bundles && Run(cfg, es).cfg.bundles[es[k].tenant] == es[k].rules
    ensures (es[k].SetRevoked? && forall m :: k < m < |es| ==> !(es[m].SetRevoked? && es[m].tenant == es[k].tenant)) ==>
              es[k].tenant in Run(cfg, es).cfg.revoked && Run(cfg, es).cfg.revoked[es[k].tenant] == es[k].jtis
    decreases |es|
  {
    hide Handle, Proxy, EvictAll, Verify, Finish, RevokedOf, ExpiredAt;
    var n := |es| - 1;
    OnlySettings(Run(cfg, es[..n]), es[n]);
    hide Step;
    if k < n {
      ConfigIsLatest(cfg, es[..n], k);
    }
  }

  lemma OnlySettings<E, A>(w: World<E, A>, ev: Event<E, A>)
    requires Known(w.t)
    ensures Step(w, ev).cfg == match ev
      case SetRevoked(tenant, jtis) => w.cfg.(revoked := w.cfg.revoked[tenant := jtis])
      case SetBundle(tenant, rules) => w.cfg.(bundles := w.cfg.bundles[tenant := rules])
      case _ => w.cfg
  {
    hide Handle, Proxy, EvictAll, RevokedOf, ExpiredAt;
  }

  /** EvictAll is eviction one by one, in any order. */
  lemma EvictAllStep<E, A>(t: Tables<E, A>, srcs: set<A>, src: A)
    requires Known(t) && srcs <= t.bySrc.Keys && src in t.bySrc && src !in srcs
    ensures EvictAll(t, srcs + {src}) == Evict(EvictAll(t, srcs), src, t.bySrc[src])
  {
    var one, all := Evict(EvictAll(t, srcs), src, t.bySrc[src]), EvictAll(t, srcs + {src});
    assert all.bySrc == one.bySrc;
    forall ip | ip in t.byInner ensures ip in all.byInner <==> ip in one.byInner {
      assert src in srcs + {src};
    }
    assert all.byInner == one.byInner;
  }
}
