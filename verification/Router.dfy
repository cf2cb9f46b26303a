/** The tunnel router of internal/dptunnel/router.go on the heap: three tables and a trie pair for each tenant. */
module TunnelRouter {
  import opened Bytes
  import opened Lpm
  import opened RouterTables
  import opened Session

  class SiteEntry<N> {
    const tenant: N
    const site: N
    const addr: N
    const sess: Session
    var cidrs: seq<Cidr>

    constructor (tenant: N, site: N, sess: Session, addr: N, cidrs: seq<Cidr>)
      ensures this.tenant == tenant && this.site == site && this.sess == sess && this.addr == addr
              && this.cidrs == cidrs
    {
      this.tenant, this.site, this.sess, this.addr, this.cidrs := tenant, site, sess, addr, cidrs;
    }

    function Info(): Site<N>
      reads this
    {
      Site(tenant, site, addr, cidrs)
    }
  }

  datatype TenantRoutes<!N> = TenantRoutes(v4: LpmTrie<SiteEntry<N>>, v6: LpmTrie<SiteEntry<N>>)

  type Infos<!N> = map<SiteEntry<N>, Site<N>>

  /** A trie holds the announced prefixes of the sites in its family. */
  ghost predicate TrieMatches<N>(t: LpmTrie<SiteEntry<N>>, sites: seq<SiteEntry<N>>, infos: Infos<N>, four: bool)
    requires forall e :: e in sites ==> e in infos
    reads t, t.Repr()
  {
    t.Valid() && t.bits == (if four then 32 else 128) && t.contents == TableOf(AllPrefixes(sites, infos, four), t.bits)
  }

  lemma {:induction false} SamePrefixes<N>(sites: seq<SiteEntry<N>>, infos: Infos<N>, infos': Infos<N>, four: bool)
    requires forall e :: e in sites ==> e in infos && e in infos' && infos[e].cidrs == infos'[e].cidrs
    ensures AllPrefixes(sites, infos, four) == AllPrefixes(sites, infos', four)
  {
    if sites != [] {
      SamePrefixes(sites[..|sites| - 1], infos, infos', four);
    }
  }

  /** The next subnet goes into the table of its family. */
  lemma NextCidr<N>(ps: seq<Prefix<SiteEntry<N>>>, e: SiteEntry<N>, cidrs: seq<Cidr>, i: nat, four: bool, bits: nat)
    requires i < |cidrs|
    ensures var before := TableOf(ps + SitePrefixes(e, cidrs[..i], four), bits);
      TableOf(ps + SitePrefixes(e, cidrs[..i + 1], four), bits)
      == if (cidrs[i].maskBits == 32) != four then before
         else InsertInto(before, Prefix(if four then To4(cidrs[i].ip) else To16(cidrs[i].ip), cidrs[i].ones, e), bits)
  {
    hide To4, To16, TableOf, Bits;
    var before, after := SitePrefixes(e, cidrs[..i], four), SitePrefixes(e, cidrs[..i + 1], four);
    assert cidrs[..i + 1][..i] == cidrs[..i];
    if (cidrs[i].maskBits == 32) != four {
      assert after == before;
    } else {
      var p := Prefix(if four then To4(cidrs[i].ip) else To16(cidrs[i].ip), cidrs[i].ones, e);
      assert ps + after == ps + before + [p];
      TableOfAppend(ps + before, p, bits);
    }
  }

  /** Inserts the prefixes of one site, both families. */
  method InsertSite<N>(v4: LpmTrie<SiteEntry<N>>, v6: LpmTrie<SiteEntry<N>>, e: SiteEntry<N>,
                    ghost four: seq<Prefix<SiteEntry<N>>>, ghost six: seq<Prefix<SiteEntry<N>>>)
    requires v4.Valid() && v6.Valid() && v4.Repr() !! v6.Repr() && e !in v4.Repr() && e !in v6.Repr()
    requires v4.bits == 32 && v6.bits == 128
    requires v4.contents == TableOf(four, 32) && v6.contents == TableOf(six, 128)
    modifies v4.Repr(), v6.Repr()
    ensures v4.Valid() && v6.Valid() && v4.Repr() !! v6.Repr()
    ensures fresh(v4.Repr() - old(v4.Repr())) && fresh(v6.Repr() - old(v6.Repr()))
    ensures v4.contents == TableOf(four + SitePrefixes(e, e.cidrs, true), 32)
    ensures v6.contents == TableOf(six + SitePrefixes(e, e.cidrs, false), 128)
  {
    hide To4, To16, TableOf, Bits, LpmTrie.Valid;
    assert four + [] == four && six + [] == six;
    for i := 0 to |e.cidrs|
      invariant v4.Valid() && v6.Valid() && v4.Repr() !! v6.Repr()
      invariant fresh(v4.Repr() - old(v4.Repr())) && fresh(v6.Repr() - old(v6.Repr()))
      invariant e.cidrs == old(e.cidrs)
      invariant v4.contents == TableOf(four + SitePrefixes(e, e.cidrs[..i], true), 32)
      invariant v6.contents == TableOf(six + SitePrefixes(e, e.cidrs[..i], false), 128)
    {
      var c := e.cidrs[i];
      NextCidr(four, e, e.cidrs, i, true, 32);
      NextCidr(six, e, e.cidrs, i, false, 128);
      if c.maskBits == 32 {
        v4.Insert(To4(c.ip), c.ones, e);
      } else {
        v6.Insert(To16(c.ip), c.ones, e);
      }
    }
    assert e.cidrs[..|e.cidrs|] == e.cidrs;
  }

  class Router<N(==,!new)> {
    var bySrc: map<N, SiteEntry<N>>
    var byTenant: map<N, seq<SiteEntry<N>>>
    var routes: map<N, TenantRoutes<N>>
    /** The live entries. */
    ghost var entries: set<SiteEntry<N>>
    /** The objects of all tries, past and present. */
    ghost var tries: set<object>

    ghost function Infos(): Infos<N>
      reads this, entries
    {
      map e | e in entries :: e.Info()
    }

    ghost function Abs(): Tables<SiteEntry<N>, N>
      reads this, entries
    {
      Tables(Infos(), bySrc, byTenant)
    }

    ghost predicate Separate()
      reads this
    {
      && this !in tries
      && (forall e :: e in entries ==> e !in tries)
    }

    /** Both tries hold the announced prefixes of the sites, on objects of their own. */
    static ghost predicate RoutesOk(r: TenantRoutes<N>, sites: seq<SiteEntry<N>>, infos: Infos<N>, tries: set<object>)
      requires forall e :: e in sites ==> e in infos
      reads tries
    {
      && r.v4 in tries && r.v4.Repr() <= tries && r.v6 in tries && r.v6.Repr() <= tries
      && TrieMatches(r.v4, sites, infos, true)
      && TrieMatches(r.v6, sites, infos, false)
    }

    ghost predicate RoutesValid(t: N)
      requires t in routes && SitesKnown(Abs())
      reads this, entries, tries
    {
      RoutesOk(routes[t], SitesOf(Abs(), t), Infos(), tries)
    }

    ghost predicate Valid()
      reads this, entries, tries
    {
      && Separate()
      && TablesValid(Abs())
      && (forall t :: t in routes <==> SitesOf(Abs(), t) != [])
      && (forall t :: t in routes ==> RoutesValid(t))
    }

    /** The routes of one tenant may be out of date. */
    ghost predicate ValidExcept(tenant: N)
      reads this, entries, tries
    {
      && Separate()
      && TablesValid(Abs())
      && (forall t :: t != tenant ==> (t in routes <==> SitesOf(Abs(), t) != []))
      && (forall t :: t in routes && t != tenant ==> RoutesValid(t))
    }

    constructor ()
      ensures Valid() && Abs() == EmptyTables()
    {
      bySrc, byTenant, routes := map[], map[], map[];
      entries, tries := {}, {};
    }

    /** rebuildRoutesLocked: the tenant's tries anew from its list. */
    method RebuildRoutes(tenant: N)
      requires ValidExcept(tenant)
      modifies this`routes, this`tries
      ensures Valid() && Abs() == old(Abs())
      ensures old(tries) <= tries && fresh(tries - old(tries))
    {
      hide ListsValid, SrcValid, RoutesOk;
      var sites := if tenant in byTenant then byTenant[tenant] else [];
      if sites == [] {
        routes := routes - {tenant};
      } else {
        var v4, v6 := BuildTries(sites, Infos());
        ReplaceRoutes(tenant, TenantRoutes(v4, v6));
      }
      assert Infos() == old(Infos());
    }

    method ReplaceRoutes(tenant: N, r: TenantRoutes<N>)
      requires ValidExcept(tenant) && SitesOf(Abs(), tenant) != []
      requires TrieMatches(r.v4, SitesOf(Abs(), tenant), Infos(), true)
      requires TrieMatches(r.v6, SitesOf(Abs(), tenant), Infos(), false)
      requires this !in r.v4.Repr() + r.v6.Repr() && forall e :: e in entries ==> e !in r.v4.Repr() + r.v6.Repr()
      modifies this`routes, this`tries
      ensures Valid() && Abs() == old(Abs())
      ensures tries == old(tries) + r.v4.Repr() + r.v6.Repr()
    {
      hide ListsValid, SrcValid, TrieMatches, RoutesOk;
      ghost var before := tries;
      routes := routes[tenant := r];
      tries := tries + r.v4.Repr() + r.v6.Repr();
      assert Infos() == old(Infos());
      forall t | t in routes
        ensures RoutesValid(t)
      {
        if t == tenant {
          NewRoutes(r, SitesOf(Abs(), t), Infos(), tries);
        } else {
          assert old(RoutesValid(t));
          RoutesGrow(routes[t], SitesOf(Abs(), t), Infos(), before, tries);
        }
      }
    }

    static lemma NewRoutes(r: TenantRoutes<N>, sites: seq<SiteEntry<N>>, infos: Infos<N>, tries: set<object>)
      requires forall e :: e in sites ==> e in infos
      requires r.v4.Repr() <= tries && r.v6.Repr() <= tries
      requires TrieMatches(r.v4, sites, infos, true) && TrieMatches(r.v6, sites, infos, false)
      ensures RoutesOk(r, sites, infos, tries)
    {
      hide TrieMatches;
    }

    static lemma RoutesGrow(r: TenantRoutes<N>, sites: seq<SiteEntry<N>>, infos: Infos<N>, tries: set<object>,
                            more: set<object>)
      requires forall e :: e in sites ==> e in infos
      requires RoutesOk(r, sites, infos, tries) && tries <= more
      ensures RoutesOk(r, sites, infos, more)
    {
      hide TrieMatches;
    }

    /** The tries of the first i sites take in the next one. */
    static method AddSite(v4: LpmTrie<SiteEntry<N>>, v6: LpmTrie<SiteEntry<N>>, sites: seq<SiteEntry<N>>, i: nat,
                          ghost infos: Infos<N>)
      requires i < |sites| && forall e :: e in sites ==> e in infos && infos[e].cidrs == e.cidrs
      requires v4.Repr() !! v6.Repr() && forall e :: e in sites ==> e !in v4.Repr() + v6.Repr()
      requires TrieMatches(v4, sites[..i], infos, true) && TrieMatches(v6, sites[..i], infos, false)
      modifies v4.Repr(), v6.Repr()
      ensures v4.Repr() !! v6.Repr()
      ensures fresh(v4.Repr() - old(v4.Repr())) && fresh(v6.Repr() - old(v6.Repr()))
      ensures TrieMatches(v4, sites[..i + 1], infos, true) && TrieMatches(v6, sites[..i + 1], infos, false)
    {
      hide AllPrefixes, SitePrefixes, TableOf, LpmTrie.Valid;
      NextPrefixes(sites, i, infos, true);
      NextPrefixes(sites, i, infos, false);
      InsertSite(v4, v6, sites[i], AllPrefixes(sites[..i], infos, true), AllPrefixes(sites[..i], infos, false));
    }

    method BuildTries(sites: seq<SiteEntry<N>>, ghost infos: Infos<N>)
      returns (v4: LpmTrie<SiteEntry<N>>, v6: LpmTrie<SiteEntry<N>>)
      requires forall e :: e in sites ==> e in infos && infos[e].cidrs == e.cidrs
      ensures fresh(v4.Repr()) && fresh(v6.Repr())
      ensures TrieMatches(v4, sites, infos, true) && TrieMatches(v6, sites, infos, false)
    {
      hide AllPrefixes, SitePrefixes, TableOf, LpmTrie.Valid, TrieMatches;
      v4, v6 := EmptyTries(infos);
      for i := 0 to |sites|
        invariant fresh(v4.Repr()) && fresh(v6.Repr()) && v4.Repr() !! v6.Repr()
        invariant TrieMatches(v4, sites[..i], infos, true) && TrieMatches(v6, sites[..i], infos, false)
        invariant forall e :: e in sites ==> e.cidrs == infos[e].cidrs
      {
        AddSite(v4, v6, sites, i, infos);
      }
      assert sites[..|sites|] == sites;
    }

    static method EmptyTries(ghost infos: Infos<N>) returns (v4: LpmTrie<SiteEntry<N>>, v6: LpmTrie<SiteEntry<N>>)
      ensures fresh(v4.Repr()) && fresh(v6.Repr()) && v4.Repr() !! v6.Repr()
      ensures TrieMatches(v4, [], infos, true) && TrieMatches(v6, [], infos, false)
    {
      hide AllPrefixes, SitePrefixes, TableOf, LpmTrie.Valid;
      v4 := new LpmTrie<SiteEntry<N>>(32);
      v6 := new LpmTrie<SiteEntry<N>>(128);
      NoPrefixes(infos);
    }

    static lemma NextPrefixes(sites: seq<SiteEntry<N>>, i: nat, infos: Infos<N>, four: bool)
      requires i < |sites| && forall e :: e in sites ==> e in infos
      ensures AllPrefixes(sites[..i + 1], infos, four)
           == AllPrefixes(sites[..i], infos, four) + SitePrefixes(sites[i], infos[sites[i]].cidrs, four)
    {
      assert sites[..i + 1][..i] == sites[..i] && sites[..i + 1][i] == sites[i];
    }

    static lemma NoPrefixes(infos: Infos<N>)
      ensures TableOf(AllPrefixes([], infos, true), 32) == map[] && TableOf(AllPrefixes([], infos, false), 128) == map[]
    {
    }

    /** Routes of a tenant stay right while its list and its sites' subnets do. */
    static lemma SameRoutes(r: TenantRoutes<N>, sites: seq<SiteEntry<N>>, infos: Infos<N>, infos': Infos<N>,
                            tries: set<object>)
      requires forall e :: e in sites ==> e in infos && e in infos' && infos[e].cidrs == infos'[e].cidrs
      requires RoutesOk(r, sites, infos, tries)
      ensures RoutesOk(r, sites, infos', tries)
    {
      SamePrefixes(sites, infos, infos', true);
      SamePrefixes(sites, infos, infos', false);
    }

    /** First position of the site in its tenant's list, as the source's range loop finds it. */
    method Position(sites: seq<SiteEntry<N>>, site: N, ghost infos: Infos<N>) returns (i: nat)
      requires forall e :: e in sites ==> e in infos && infos[e].site == e.site
      ensures i == Find(sites, infos, site)
    {
      i := 0;
      while i < |sites| && sites[i].site != site
        invariant i <= |sites|
        invariant Find(sites, infos, site) == i + Find(sites[i..], infos, site)
      {
        i := i + 1;
      }
    }

    /** The entry at position i of the tenant's list leaves bySrc, by its address, and byTenant. */
    method DropEntry(tenant: N, i: nat)
      requires Valid() && i < |SitesOf(Abs(), tenant)|
      modifies this`bySrc, this`byTenant, this`entries
      ensures ValidExcept(tenant) && Abs() == RemoveAt(old(Abs()), tenant, i)
      ensures entries <= old(entries)
    {
      hide ListsValid, SrcValid, RoutesOk;
      Listed(Abs(), tenant, i);
      RemoveAtKeeps(Abs(), tenant, i);
      ghost var before, tables := Infos(), Abs();
      var sites := byTenant[tenant];
      var e := sites[i];
      bySrc := bySrc - {e.addr};
      byTenant := byTenant[tenant := sites[..i] + sites[i + 1..]];
      entries := entries - {e};
      assert Infos() == before - {e};
      assert Abs() == RemoveAt(tables, tenant, i);
      forall t | t in routes && t != tenant
        ensures RoutesValid(t)
      {
        assert old(RoutesValid(t));
        SameRoutes(routes[t], SitesOf(Abs(), t), before, Infos(), tries);
      }
    }

    /** removeLocked */
    method RemoveLocked(tenant: N, site: N)
      requires Valid()
      modifies this
      ensures Valid() && Abs() == Remove(old(Abs()), tenant, site)
      ensures entries <= old(entries) && old(tries) <= tries && fresh(tries - old(tries))
    {
      hide ListsValid, SrcValid, Find, RoutesOk, RoutesValid, ValidExcept;
      KnownTables();
      var sites := if tenant in byTenant then byTenant[tenant] else [];
      var i := Position(sites, site, Infos());
      if i == |sites| {
        return;
      }
      DropEntry(tenant, i);
      RebuildRoutes(tenant);
    }

    lemma KnownTables()
      requires TablesValid(Abs())
      ensures SitesKnown(Abs())
      ensures forall e :: e in entries ==> Infos()[e].site == e.site && Infos()[e].cidrs == e.cidrs
    {
    }

    /** Register: whoever answered to (tenant, site) before is gone, the new entry is listed and indexed. */
    method Register(tenant: N, site: N, sess: Session, addr: N, cidrs: seq<Cidr>)
      returns (ghost e: SiteEntry<N>)
      requires Valid()
      modifies this
      ensures Valid() && fresh(e) && e.sess == sess
      ensures Abs() == RouterTables.Register(old(Abs()), e, Site(tenant, site, addr, cidrs))
      ensures entries <= old(entries) + {e} && old(tries) <= tries && fresh(tries - old(tries))
    {
      hide ListsValid, SrcValid, RouterTables.Remove, RoutesOk, RoutesValid, ValidExcept;
      RemoveKeeps(Abs(), tenant, site);
      ghost var start := Abs();
      RemoveLocked(tenant, site);
      var entry := new SiteEntry<N>(tenant, site, sess, addr, cidrs);
      RegisterKeeps(start, entry, entry.Info());
      AddEntry(entry);
      e := entry;
      RebuildRoutes(tenant);
    }

    method AddEntry(e: SiteEntry<N>)
      requires Valid() && e !in entries && e !in tries && TablesValid(Append(Abs(), e, e.Info()))
      modifies this`bySrc, this`byTenant, this`entries
      ensures ValidExcept(e.tenant) && Abs() == Append(old(Abs()), e, e.Info())
      ensures entries == old(entries) + {e}
    {
      hide ListsValid, SrcValid, RoutesOk;
      ghost var before, tables := Infos(), Abs();
      bySrc := bySrc[e.addr := e];
      byTenant := byTenant[e.tenant := (if e.tenant in byTenant then byTenant[e.tenant] else []) + [e]];
      entries := entries + {e};
      assert Infos() == before[e := e.Info()];
      assert Abs() == Append(tables, e, e.Info());
      forall t | t in routes && t != e.tenant
        ensures RoutesValid(t)
      {
        assert old(RoutesValid(t));
        SameRoutes(routes[t], SitesOf(Abs(), t), before, Infos(), tries);
      }
    }

    /** Deregister */
    method Deregister(tenant: N, site: N)
      requires Valid()
      modifies this
      ensures Valid() && Abs() == Remove(old(Abs()), tenant, site)
      ensures entries <= old(entries) && old(tries) <= tries && fresh(tries - old(tries))
    {
      RemoveLocked(tenant, site);
    }

    /**
     * UpdateCIDRs: the entry, its address and its session stay; only its subnets and the tenant's routes change.
     * Sessions are not in the frame, so their counters go on from where they are.
     */
    method UpdateCIDRs(tenant: N, site: N, cidrs: seq<Cidr>) returns (found: bool)
      requires Valid()
      modifies this`routes, this`tries, entries
      ensures Valid() && Abs() == UpdateCidrs(old(Abs()), tenant, site, cidrs)
      ensures found == (Find(SitesOf(old(Abs()), tenant), old(Abs()).entries, site) < |SitesOf(old(Abs()), tenant)|)
      ensures entries == old(entries)
      ensures forall e :: e in entries ==> e.sess.SenderAbs() == old(e.sess.SenderAbs())
    {
      hide ListsValid, SrcValid, Find, RoutesOk, RoutesValid, ValidExcept;
      KnownTables();
      ghost var start := Abs();
      var sites := if tenant in byTenant then byTenant[tenant] else [];
      var i := Position(sites, site, Infos());
      if i == |sites| {
        return false;
      }
      UpdateKeeps(start, tenant, site, cidrs);
      SetCidrs(sites[i], tenant, cidrs);
      RebuildRoutes(tenant);
      found := true;
    }

    method SetCidrs(e: SiteEntry<N>, tenant: N, cidrs: seq<Cidr>)
      requires Valid() && e in SitesOf(Abs(), tenant)
      requires TablesValid(WithCidrs(Abs(), e, cidrs))
      modifies e`cidrs
      ensures ValidExcept(tenant) && Abs() == WithCidrs(old(Abs()), e, cidrs)
    {
      hide ListsValid, SrcValid, RoutesOk;
      ghost var before, tables := Infos(), Abs();
      assert e in entries;
      e.cidrs := cidrs;
      assert Infos() == before[e := before[e].(cidrs := cidrs)];
      forall t | t in routes && t != tenant
        ensures RoutesValid(t)
      {
        assert old(RoutesValid(t));
        NotListedElsewhere(tables, e, tenant, t);
        SameRoutes(routes[t], SitesOf(Abs(), t), before, Infos(), tries);
      }
    }

    static ghost function WithCidrs(t: Tables<SiteEntry<N>, N>, e: SiteEntry<N>, cidrs: seq<Cidr>)
      : Tables<SiteEntry<N>, N>
      requires e in t.entries
    {
      t.(entries := t.entries[e := t.entries[e].(cidrs := cidrs)])
    }

    static lemma NotListedElsewhere(t: Tables<SiteEntry<N>, N>, e: SiteEntry<N>, tenant: N, other: N)
      requires TablesValid(t) && e in SitesOf(t, tenant) && other != tenant
      ensures e !in SitesOf(t, other)
    {
      assert ListValid(t.entries, tenant, t.byTenant[tenant]);
      assert other in t.byTenant ==> ListValid(t.entries, other, t.byTenant[other]);
    }

    /** route: the trie of the destination's family answers as a longest-prefix scan of the tenant's sites. */
    method Route(tenant: N, dst: Ip) returns (to: Option<SiteEntry<N>>)
      requires Valid()
      ensures to == RouterTables.Route(Abs(), tenant, dst)
    {
      hide TablesValid, AllPrefixes, SitePrefixes, Scan, TableOf, Longest;
      KnownTables();
      if tenant !in routes {
        NoSitesNoRoute(tenant, dst);
        return None;
      }
      assert RoutesValid(tenant);
      var r := routes[tenant];
      var ip4 := To4(dst);
      if ip4 != [] {
        to := r.v4.LongestPrefix(ip4);
        TrieRefinesScan(AllPrefixes(SitesOf(Abs(), tenant), Infos(), true), ip4, 32);
      } else {
        to := r.v6.LongestPrefix(To16(dst));
        if To16(dst) == [] {
          ShortKeyNoRoute(AllPrefixes(SitesOf(Abs(), tenant), Infos(), false), [], 128);
        } else {
          TrieRefinesScan(AllPrefixes(SitesOf(Abs(), tenant), Infos(), false), To16(dst), 128);
        }
      }
    }

    lemma NoSitesNoRoute(tenant: N, dst: Ip)
      requires SitesKnown(Abs()) && SitesOf(Abs(), tenant) == []
      ensures RouterTables.Route(Abs(), tenant, dst) == None
    {
    }

    static lemma {:induction false} ShortKeyNoRoute(ps: seq<Prefix<SiteEntry<N>>>, ip: Ip, bits: nat)
      requires |ip| * 8 != bits
      ensures Scan(ps, ip, bits) == None
    {
      if ps != [] {
        ShortKeyNoRoute(ps[..|ps| - 1], ip, bits);
      }
    }
  }
}
