/** The ZTNA terminator of internal/pop/ztnaterm on the heap: session objects, and two tables that point to them. */
module ZtnaTerminator {
  import opened Bytes
  import opened Names
  import opened Packet
  import opened Pep
  import opened TerminatorState
  import opened TerminatorRuns
  import Compiler

  class TermSession<A> {
    const src: A
    const claims: Claims
    const tenant: Name
    const deadline: int
    var innerIPs: set<Ip>
    var flows: map<Tuple5, Verdict>

    constructor (src: A, claims: Claims, tenant: Name, deadline: int)
      ensures Info() == Term(src, claims, tenant, deadline, {}, map[])
    {
      this.src, this.claims, this.tenant, this.deadline := src, claims, tenant, deadline;
      innerIPs, flows := {}, map[];
    }

    function Info(): Term<A>
      reads this
    {
      Term(src, claims, tenant, deadline, innerIPs, flows)
    }
  }

  class Terminator<A(==,!new)> {
    const apps: map<Name, seq<AppRule>>
    const cap: int
    var revoked: map<Name, set<Name>>
    var bundles: map<Name, seq<Compiler.Rule>>
    var bySrc: map<A, TermSession<A>>
    var byInner: map<Ip, TermSession<A>>
    /** Every session object there has been. */
    ghost var made: set<TermSession<A>>

    function Cfg(): Config
      reads this
    {
      Config(apps, cap, revoked, bundles)
    }

    ghost function Infos(): map<TermSession<A>, Term<A>>
      reads this, made
    {
      map s | s in made :: s.Info()
    }

    ghost function Abs(): Tables<TermSession<A>, A>
      reads this, made
    {
      Tables(Infos(), bySrc, byInner)
    }

    ghost predicate Valid()
      reads this, made
    {
      Known(Abs())
    }

    constructor (apps: map<Name, seq<AppRule>>, configuredCap: int)
      ensures Valid() && Abs() == EmptyTables() && Cfg() == Config(apps, SessionCap(configuredCap), map[], map[])
    {
      this.apps, cap := apps, SessionCap(configuredCap);
      revoked, bundles, bySrc, byInner, made := map[], map[], map[], map[], {};
    }

    method OnEstablished(claims: Claims, tenant: Name, src: A, ok: bool, now: int) returns (s: TermSession?<A>)
      requires Valid()
      modifies this`bySrc, this`byInner, this`made
      ensures Valid()
      ensures s == null ==> claims.tenant != tenant || !ok
      ensures s == null ==> Abs() == old(Abs())
      ensures s != null ==> fresh(s) && claims.tenant == tenant && ok
      ensures s != null ==> Abs() == Establish(Cfg(), old(Abs()), s, claims, tenant, src, ok, now)
    {
      hide ComputeDeadline, DropInnerIPs;
      if claims.tenant != tenant {
        return null;
      }
      if !ok {
        return null;
      }
      s := new TermSession(src, claims, tenant, ComputeDeadline(Cfg(), claims, now));
      if src in bySrc {
        DropInner(bySrc[src]);
      }
      bySrc := bySrc[src := s];
      made := made + {s};
      assert Infos() == old(Infos())[s := s.Info()];
      assert Abs() == Establish(Cfg(), old(Abs()), s, claims, tenant, src, ok, now);
    }

    /** dropInnerIPsLocked. */
    method DropInner(s: TermSession<A>)
      requires s in made
      modifies this`byInner
      ensures byInner == DropInnerIPs(old(Abs()), s)
    {
      var left := s.innerIPs;
      while left != {}
        invariant left <= s.innerIPs
        invariant byInner == map ip | ip in old(byInner)
                                      && !(old(byInner)[ip] == s && ip in s.innerIPs && ip !in left) :: old(byInner)[ip]
        decreases left
      {
        var ip :| ip in left;
        if ip in byInner && byInner[ip] == s {
          byInner := byInner - {ip};
        }
        left := left - {ip};
      }
    }

    method EvictSession(src: A, s: TermSession<A>)
      requires Valid() && s in made
      modifies this`bySrc, this`byInner
      ensures Valid() && Abs() == Evict(old(Abs()), src, s)
    {
      if src !in bySrc || bySrc[src] != s {
        return;
      }
      bySrc := bySrc - {src};
      DropInner(s);
    }

    method LearnInnerIP(s: TermSession<A>, srcIP: Ip)
      requires Valid() && s in made
      modifies this`byInner, s`innerIPs
      ensures Valid() && Abs() == Learn(old(Abs()), s, srcIP)
    {
      var ip := Canon(srcIP);
      var known := ip in s.innerIPs;
      if known {
        return;
      }
      s.innerIPs := s.innerIPs + {ip};
      byInner := byInner[ip := s];
      assert Infos() == old(Infos())[s := s.Info()];
    }

    /** None when the credential is revoked. */
    method DecideOn(s: TermSession<A>, app: Name) returns (allow: Option<bool>)
      requires Valid() && s in made
      modifies this`bySrc, this`byInner
      ensures Valid() && (Abs(), allow) == DecideResource(Cfg(), old(Abs()), s, app)
    {
      hide IsRevoked, PepAllows, Evict;
      if IsRevoked(Cfg(), s.tenant, s.claims.jti) {
        EvictSession(s.src, s);
        return None;
      }
      allow := Some(PepAllows(Cfg(), s.claims, s.tenant, app));
    }

    method DecideFlow(s: TermSession<A>, t: Tuple5, now: int) returns (reason: Option<Reason>)
      requires Valid() && s in made
      modifies this`bySrc, this`byInner, s`flows
      ensures Valid() && (Abs(), reason) == TerminatorState.Decide(Cfg(), old(Abs()), s, now, t)
    {
      hide DecideResource, Resolve, KeyOf, Known;
      var key := KeyOf(t);
      if key in s.flows && now < s.flows[key].expire {
        return if s.flows[key].allow then None else Some(PepDeny);
      }
      var app := Resolve(apps, s.tenant, t.dst, t.dstPort);
      if app.None? {
        return Some(NoApp);
      }
      var allow := DecideOn(s, app.value);
      if allow.None? {
        return Some(Revoked);
      }
      ghost var before := Infos();
      assert before == old(Infos());
      s.flows := s.flows[key := Verdict(allow.value, now + FLOW_CACHE_TTL)];
      assert Infos() == before[s := s.Info()];
      StillKnown(Tables(before, bySrc, byInner), Abs());
      reason := if allow.value then None else Some(PepDeny);
    }

    static lemma StillKnown(t: Tables<TermSession<A>, A>, t': Tables<TermSession<A>, A>)
      requires Known(t) && t'.sessions.Keys == t.sessions.Keys && t'.bySrc == t.bySrc && t'.byInner == t.byInner
      ensures Known(t')
    {
    }

    method ForwardInner(s: TermSession<A>, pkt: seq<byte>, now: int) returns (out: Outcome)
      requires Valid() && s in made
      modifies this`bySrc, this`byInner, s`innerIPs, s`flows
      ensures Valid() && (Abs(), out) == Forward(Cfg(), old(Abs()), s, now, pkt)
    {
      hide Learn, TerminatorState.Decide, ParseStrict, Known;
      var t := ParseStrict(pkt);
      if t.None? {
        return Dropped(ParseFail);
      }
      LearnInnerIP(s, t.value.src);
      var reason := DecideFlow(s, t.value, now);
      out := if reason.None? then Written(pkt) else Dropped(reason.value);
    }

    /** handleDatagram; `payload` is what the session's Open returns. */
    method HandleDatagram(src: A, now: int, payload: Option<seq<seq<byte>>>) returns (outs: seq<Outcome>)
      requires Valid()
      modifies this`bySrc, this`byInner, made
      ensures Valid() && (Abs(), outs) == Handle(Cfg(), old(Abs()), src, now, payload)
    {
      hide Forward, Evict;
      if src !in bySrc {
        return [Dropped(NoSession)];
      }
      var s := bySrc[src];
      assert s in Infos();
      if s.deadline <= now {
        EvictSession(src, s);
        return [Dropped(Expired)];
      }
      if payload.None? {
        return [Dropped(DecryptFail)];
      }
      hide Known;
      outs := [];
      var pkts := payload.value;
      for i := 0 to |pkts|
        invariant Valid() && Cfg() == old(Cfg()) && made == old(made)
        invariant (Abs(), outs) == ForwardAll(Cfg(), old(Abs()), s, now, pkts[..i])
      {
        assert pkts[..i + 1][..i] == pkts[..i];
        var out := ForwardInner(s, pkts[i], now);
        outs := outs + [out];
      }
      assert pkts[..|pkts|] == pkts;
    }

    method EvictVictims(victims: set<A>)
      requires Valid() && victims <= bySrc.Keys
      modifies this`bySrc, this`byInner
      ensures Valid() && Abs() == EvictAll(old(Abs()), victims)
    {
      hide Evict;
      ghost var t := Abs();
      ghost var was := bySrc;
      var left := victims;
      var table := bySrc;
      EvictNone(t);
      while left != {}
        invariant left <= victims && Valid() && made == old(made)
        invariant Abs() == EvictAll(t, victims - left)
        decreases left
      {
        var src :| src in left;
        assert victims - (left - {src}) == (victims - left) + {src};
        EvictAllStep(t, victims - left, src);
        EvictSession(src, table[src]);
        left := left - {src};
      }
      assert victims - {} == victims;
    }

    static lemma EvictNone(t: Tables<TermSession<A>, A>)
      requires Known(t)
      ensures EvictAll(t, {}) == t
    {
      assert EvictAll(t, {}).byInner == t.byInner;
      assert EvictAll(t, {}).bySrc == t.bySrc;
    }

    /** Victims are picked first and then evicted one by one. */
    method EvictRevokedOf(tenant: Name)
      requires Valid()
      modifies this`bySrc, this`byInner
      ensures Valid() && Abs() == EvictAll(old(Abs()), RevokedOf(Cfg(), old(Abs()), tenant))
    {
      hide EvictAll;
      assert forall src <- bySrc :: bySrc[src] in made && Infos()[bySrc[src]] == bySrc[src].Info();
      var victims := set src | src in bySrc && bySrc[src].tenant == tenant
                                && IsRevoked(Cfg(), bySrc[src].tenant, bySrc[src].claims.jti);
      assert victims == RevokedOf(Cfg(), Abs(), tenant);
      EvictVictims(victims);
    }

    method SweepExpired(now: int) returns (n: nat)
      requires Valid()
      modifies this`bySrc, this`byInner
      ensures Valid() && Abs() == EvictAll(old(Abs()), ExpiredAt(old(Abs()), now)) && n == |ExpiredAt(old(Abs()), now)|
    {
      hide EvictAll;
      assert forall src <- bySrc :: bySrc[src] in made && Infos()[bySrc[src]] == bySrc[src].Info();
      var victims := set src | src in bySrc && bySrc[src].deadline <= now;
      assert victims == ExpiredAt(Abs(), now);
      EvictVictims(victims);
      n := |victims|;
    }
  }
}
