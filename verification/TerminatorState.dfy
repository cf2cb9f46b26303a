/**
 * The ZTNA terminator of internal/pop/ztnaterm as values: what each handler does to the session tables and the flow
 * caches. E identifies a session object, as a pointer does in the source; A is the type of UDP addresses.
 */
module TerminatorState {
  import opened Bytes
  import opened Names
  import opened Packet
  import opened Pep
  import Compiler
  import Lpm
  import RouterTables

  type Ip = Lpm.Ip

  /** Times are in nanoseconds. */
  const SECOND: int := 1_000_000_000
  const FLOW_CACHE_TTL: int := 30 * SECOND
  const DEFAULT_SESSION_CAP: int := 3600 * SECOND

  datatype AppRule = AppRule(net: Ip, ones: nat, port: u16, app: Name)

  /** What a terminator shares with the rest of the point of presence. */
  datatype Config = Config(apps: map<Name, seq<AppRule>>, cap: int, revoked: map<Name, set<Name>>,
                           bundles: map<Name, seq<Compiler.Rule>>)

  datatype Verdict = Verdict(allow: bool, expire: int)

  datatype Term<A> = Term(src: A, claims: Claims, tenant: Name, deadline: int, innerIPs: set<Ip>,
                          flows: map<Tuple5, Verdict>)

  datatype Tables<E, A> = Tables(sessions: map<E, Term<A>>, bySrc: map<A, E>, byInner: map<Ip, E>)

  function EmptyTables<E, A>(): Tables<E, A> {
    Tables(map[], map[], map[])
  }

  datatype Reason = NoSession | Expired | DecryptFail | ParseFail | NoApp | PepDeny | Revoked

  datatype Outcome = Written(pkt: seq<byte>) | Dropped(reason: Reason)

  // ---- Addresses and application lookup ----

  /** The form under which IP.String and IPNet.Contains treat an address: IPv4-mapped addresses as IPv4. */
  function Canon(ip: Ip): Ip {
    var four := RouterTables.To4(ip);
    if four == [] then ip else four
  }

  function KeyOf(t: Tuple5): Tuple5 {
    t.(src := Canon(t.src), dst := Canon(t.dst))
  }

  /** The mask length that goes with Canon(r.net): of an IPv4-mapped network the last 32 mask bits count. */
  function CanonOnes(r: AppRule): nat {
    if |Canon(r.net)| == |r.net| then r.ones else if r.ones >= 96 then r.ones - 96 else 0
  }

  /** Same family and the same first bits (IPNet.Contains), and the port unless the rule takes any. */
  predicate RuleCovers(r: AppRule, dst: Ip, port: u16) {
    && Lpm.Covers(Lpm.Prefix(Canon(r.net), CanonOnes(r), r.app), Canon(dst), 8 * |Canon(dst)|)
    && (r.port == 0 || r.port == port)
  }

  function FirstRule(rules: seq<AppRule>, dst: Ip, port: u16): Option<Name> {
    if rules == [] then None
    else if RuleCovers(rules[0], dst, port) then Some(rules[0].app)
    else FirstRule(rules[1..], dst, port)
  }

  /** Resolve: the first rule of the tenant that covers the destination. */
  function Resolve(apps: map<Name, seq<AppRule>>, tenant: Name, dst: Ip, port: u16): Option<Name> {
    if tenant in apps then FirstRule(apps[tenant], dst, port) else None
  }

  /** Destinations of one cached flow resolve alike. */
  lemma {:induction false} FirstRuleCanon(rules: seq<AppRule>, a: Ip, b: Ip, port: u16)
    requires Canon(a) == Canon(b)
    ensures FirstRule(rules, a, port) == FirstRule(rules, b, port)
  {
    hide Canon, CanonOnes, Lpm.Covers;
    if rules != [] {
      FirstRuleCanon(rules[1..], a, b, port);
    }
  }

  /** The IPv4 form of an address that has one, by its bytes. */
  lemma CanonMeaning(ip: Ip)
    ensures |ip| == 16 && ip[..12] == RouterTables.MAPPED ==> Canon(ip) == ip[12..]
    ensures !(|ip| == 16 && ip[..12] == RouterTables.MAPPED) ==> Canon(ip) == ip
  {
    RouterTables.FamilyMeaning(ip);
  }

  /** Two packets belong to one flow exactly when protocol, both ports and both addresses agree, however written. */
  lemma KeyMeaning(t: Tuple5, u: Tuple5)
    ensures KeyOf(t) == KeyOf(u) <==>
              && t.proto == u.proto && t.srcPort == u.srcPort && t.dstPort == u.dstPort
              && Canon(t.src) == Canon(u.src) && Canon(t.dst) == Canon(u.dst)
    ensures KeyOf(t).dst == Canon(t.dst) && KeyOf(t).dstPort == t.dstPort
  {
    hide Canon;
  }

  /**
   * Which destinations a rule covers, in numbers: an IPv4 rule those IPv4 addresses that agree in the first `ones`
   * bits, however they are written; an IPv6 rule those IPv6 addresses; and the port, unless it takes any.
   */
  lemma RuleCoversMeaning(r: AppRule, dst: Ip, port: u16)
    ensures |r.net| == 4 ==> (RuleCovers(r, dst, port) <==>
              Lpm.InNet(Lpm.Prefix(r.net, r.ones, r.app), Canon(dst), 32) && (r.port == 0 || r.port == port))
    ensures |r.net| == 16 && r.net[..12] == RouterTables.MAPPED ==> (RuleCovers(r, dst, port) <==>
              Lpm.InNet(Lpm.Prefix(r.net[12..], if r.ones >= 96 then r.ones - 96 else 0, r.app), Canon(dst), 32)
              && (r.port == 0 || r.port == port))
    ensures |r.net| == 16 && r.net[..12] != RouterTables.MAPPED ==> (RuleCovers(r, dst, port) <==>
              Lpm.InNet(Lpm.Prefix(r.net, r.ones, r.app), Canon(dst), 128) && (r.port == 0 || r.port == port))
  {
    CanonMeaning(r.net);
    hide Canon, Lpm.InNet, Lpm.Covers;
    Lpm.CoversIsInNet(Lpm.Prefix(Canon(r.net), CanonOnes(r), r.app), Canon(dst), 8 * |Canon(dst)|);
    SizesAgree(Lpm.Prefix(Canon(r.net), CanonOnes(r), r.app), Canon(dst));
  }

  lemma SizesAgree(p: Lpm.Prefix<Name>, ip: Ip)
    ensures Lpm.InNet(p, ip, 8 * |ip|) ==> |p.ip| == |ip|
    ensures Lpm.InNet(p, ip, 32) <==> |ip| == 4 && Lpm.InNet(p, ip, 8 * |ip|)
    ensures Lpm.InNet(p, ip, 128) <==> |ip| == 16 && Lpm.InNet(p, ip, 8 * |ip|)
  {
    hide Pow2, GetBE;
  }

  /** An application is found exactly when some rule of the tenant covers the destination: that of the first one. */
  lemma {:induction false} FirstRuleMeaning(rules: seq<AppRule>, dst: Ip, port: u16)
    ensures FirstRule(rules, dst, port).None? <==> forall i :: 0 <= i < |rules| ==> !RuleCovers(rules[i], dst, port)
    ensures FirstRule(rules, dst, port).Some? ==>
              exists i :: 0 <= i < |rules| && RuleCovers(rules[i], dst, port)
                && FirstRule(rules, dst, port) == Some(rules[i].app)
                && forall j :: 0 <= j < i ==> !RuleCovers(rules[j], dst, port)
  {
    hide RuleCovers;
    if rules != [] && !RuleCovers(rules[0], dst, port) {
      var rest := rules[1..];
      FirstRuleMeaning(rest, dst, port);
      assert forall i :: 0 <= i < |rest| ==> rules[i + 1] == rest[i];
      if FirstRule(rest, dst, port).Some? {
        var i :| 0 <= i < |rest| && RuleCovers(rest[i], dst, port) && FirstRule(rest, dst, port) == Some(rest[i].app)
                 && forall j :: 0 <= j < i ==> !RuleCovers(rest[j], dst, port);
        forall j | 0 <= j < i + 1 ensures !RuleCovers(rules[j], dst, port) {
          assert j == 0 || rules[j] == rest[j - 1];
        }
        assert rules[i + 1] == rest[i];
      }
    }
  }

  // ---- Credentials and sessions ----

  predicate IsRevoked(cfg: Config, tenant: Name, jti: Name) {
    tenant in cfg.revoked && jti in cfg.revoked[tenant]
  }

  datatype CredResult = CredOk(claims: Claims) | BadToken | TenantMismatch | CredRevoked

  /** VerifyCred; `verified` is what the token verifier returns at this time. */
  function VerifyCred(cfg: Config, verified: Option<Claims>, certTenant: Name): CredResult {
    if verified.None? then BadToken
    else if verified.value.tenant != certTenant then TenantMismatch
    else if IsRevoked(cfg, verified.value.tenant, verified.value.jti) then CredRevoked
    else CredOk(verified.value)
  }

  function SessionCap(configured: int): int {
    if configured <= 0 then DEFAULT_SESSION_CAP else configured
  }

  function ComputeDeadline(cfg: Config, c: Claims, now: int): int {
    if c.expireAt <= 0 then now + cfg.cap
    else if c.expireAt * SECOND < now + cfg.cap then c.expireAt * SECOND
    else now + cfg.cap
  }

  /** dropInnerIPsLocked: only entries that still point at the session. */
  function DropInnerIPs<E, A>(t: Tables<E, A>, e: E): map<Ip, E>
    requires e in t.sessions
  {
    map ip | ip in t.byInner && !(t.byInner[ip] == e && ip in t.sessions[e].innerIPs) :: t.byInner[ip]
  }

  ghost predicate Known<E, A>(t: Tables<E, A>) {
    (forall src <- t.bySrc :: t.bySrc[src] in t.sessions) && (forall ip <- t.byInner :: t.byInner[ip] in t.sessions)
  }

  /** OnEstablished with a session object of its own; `ok` is whether the keys gave a session. */
  function Establish<E, A>(cfg: Config, t: Tables<E, A>, e: E, claims: Claims, tenant: Name, src: A, ok: bool, now: int)
    : (t': Tables<E, A>)
    requires Known(t)
    ensures Known(t')
  {
    if claims.tenant != tenant || !ok then t else
    var s := Term(src, claims, tenant, ComputeDeadline(cfg, claims, now), {}, map[]);
    Tables(t.sessions[e := s], t.bySrc[src := e], if src in t.bySrc then DropInnerIPs(t, t.bySrc[src]) else t.byInner)
  }

  /** evictSession: nothing happens when the address has another session by now. */
  function Evict<E, A>(t: Tables<E, A>, src: A, e: E): (t': Tables<E, A>)
    requires e in t.sessions
    ensures Known(t) ==> Known(t')
    ensures t'.sessions == t.sessions
  {
    if src !in t.bySrc || t.bySrc[src] != e then t
    else t.(bySrc := t.bySrc - {src}, byInner := DropInnerIPs(t, e))
  }

  /** All sessions of a set of addresses at once. */
  function EvictAll<E, A>(t: Tables<E, A>, srcs: set<A>): (t': Tables<E, A>)
    requires Known(t) && srcs <= t.bySrc.Keys
    ensures Known(t')
    ensures t'.sessions == t.sessions
  {
    t.(bySrc := t.bySrc - srcs,
       byInner := map ip | ip in t.byInner && !(ip in t.sessions[t.byInner[ip]].innerIPs
                                                && exists src :: src in srcs && t.bySrc[src] == t.byInner[ip])
                    :: t.byInner[ip])
  }

  function RevokedOf<E, A>(cfg: Config, t: Tables<E, A>, tenant: Name): set<A>
    requires Known(t)
  {
    set src | src in t.bySrc && t.sessions[t.bySrc[src]].tenant == tenant
              && IsRevoked(cfg, tenant, t.sessions[t.bySrc[src]].claims.jti)
  }

  function ExpiredAt<E, A>(t: Tables<E, A>, now: int): set<A>
    requires Known(t)
  {
    set src | src in t.bySrc && t.sessions[t.bySrc[src]].deadline <= now
  }

  // ---- Data path ----

  function BundleOf(cfg: Config, tenant: Name): Option<seq<Compiler.Rule>> {
    if tenant in cfg.bundles then Some(cfg.bundles[tenant]) else None
  }

  predicate PepAllows(cfg: Config, s: Claims, tenant: Name, app: Name) {
    Pep.Decide(BundleOf(cfg, tenant), s, app, "connect") != Compiler.DENY
  }

  /** decideResource: the session goes when its credential is revoked. */
  function DecideResource<E, A>(cfg: Config, t: Tables<E, A>, e: E, app: Name): (Tables<E, A>, Option<bool>)
    requires e in t.sessions
  {
    var s := t.sessions[e];
    if IsRevoked(cfg, s.tenant, s.claims.jti) then (Evict(t, s.src, e), None)
    else (t, Some(PepAllows(cfg, s.claims, s.tenant, app)))
  }

  /** decide: the cached verdict of the flow while it lasts, else a new one. None means allow. */
  function Decide<E, A>(cfg: Config, t: Tables<E, A>, e: E, now: int, tup: Tuple5): (Tables<E, A>, Option<Reason>)
    requires e in t.sessions
  {
    var s := t.sessions[e];
    var key := KeyOf(tup);
    if key in s.flows && now < s.flows[key].expire then (t, if s.flows[key].allow then None else Some(PepDeny)) else
    match Resolve(cfg.apps, s.tenant, tup.dst, tup.dstPort)
    case None => (t, Some(NoApp))
    case Some(app) =>
      var (t', allow) := DecideResource(cfg, t, e, app);
      if allow.None? then (t', Some(Revoked))
      else (t'.(sessions := t'.sessions[e := s.(flows := s.flows[key := Verdict(allow.value, now + FLOW_CACHE_TTL)])]),
            if allow.value then None else Some(PepDeny))
  }

  /** learnInnerIP: the latest session to show an address gets its return traffic. */
  function Learn<E, A>(t: Tables<E, A>, e: E, ip: Ip): (t': Tables<E, A>)
    requires e in t.sessions
    ensures t'.sessions.Keys == t.sessions.Keys && t'.bySrc == t.bySrc
  {
    var s := t.sessions[e];
    if Canon(ip) in s.innerIPs then t
    else t.(sessions := t.sessions[e := s.(innerIPs := s.innerIPs + {Canon(ip)})], byInner := t.byInner[Canon(ip) := e])
  }

  /** forwardInner. */
  function Forward<E, A>(cfg: Config, t: Tables<E, A>, e: E, now: int, pkt: seq<byte>): (r: (Tables<E, A>, Outcome))
    requires e in t.sessions
    ensures e in r.0.sessions
  {
    match ParseStrict(pkt)
    case None => (t, Dropped(ParseFail))
    case Some(tup) =>
      var (t', reason) := Decide(cfg, Learn(t, e, tup.src), e, now, tup);
      (t', if reason.None? then Written(pkt) else Dropped(reason.value))
  }

  function ForwardAll<E, A>(cfg: Config, t: Tables<E, A>, e: E, now: int, pkts: seq<seq<byte>>)
    : (r: (Tables<E, A>, seq<Outcome>))
    requires e in t.sessions
    ensures e in r.0.sessions
  {
    if pkts == [] then (t, []) else
    var (t', outs) := ForwardAll(cfg, t, e, now, pkts[..|pkts| - 1]);
    var (t'', out) := Forward(cfg, t', e, now, pkts[|pkts| - 1]);
    (t'', outs + [out])
  }

  /** handleDatagram; `payload` is what the session's Open returns for the datagram. */
  function Handle<E, A>(cfg: Config, t: Tables<E, A>, src: A, now: int, payload: Option<seq<seq<byte>>>)
    : (Tables<E, A>, seq<Outcome>)
    requires Known(t)
  {
    if src !in t.bySrc then (t, [Dropped(NoSession)]) else
    var e := t.bySrc[src];
    if t.sessions[e].deadline <= now then (Evict(t, src, e), [Dropped(Expired)])
    else if payload.None? then (t, [Dropped(DecryptFail)])
    else ForwardAll(cfg, t, e, now, payload.value)
  }
}
