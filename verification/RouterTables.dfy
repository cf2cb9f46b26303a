/**
 * The tunnel router's tables as values: what registration, deregistration and CIDR updates of
 * internal/dptunnel/router.go do to them. E identifies an entry, as a pointer does in the source.
 */
module RouterTables {
  import opened Bytes
  import opened Lpm
  import opened Sequences

  /** A subnet: address, and the two results of Mask.Size(). */
  datatype Cidr = Cidr(ip: Ip, ones: int, maskBits: int)

  /** N is the type of tenant, site and address names. */
  datatype Site<N> = Site(tenant: N, site: N, addr: N, cidrs: seq<Cidr>)

  datatype Tables<E, N> = Tables(entries: map<E, Site<N>>, bySrc: map<N, E>, byTenant: map<N, seq<E>>)

  function EmptyTables<E, N>(): Tables<E, N> {
    Tables(map[], map[], map[])
  }

  // ---- Address families ----

  /** net.IP.To4, [] for nil. */
  function To4(ip: Ip): Ip {
    if |ip| == 4 then ip
    else if |ip| == 16 && (forall i :: 0 <= i < 10 ==> ip[i] == 0) && ip[10] == 0xff && ip[11] == 0xff then ip[12..16]
    else []
  }

  /** net.IP.To16, [] for nil. */
  function To16(ip: Ip): Ip {
    if |ip| == 4 then [0, 0, 0, 0, 0, 0, 0, 0, 0, 0, 0xff, 0xff] + ip
    else if |ip| == 16 then ip
    else []
  }

  /** The prefixes a site announces in one family, the family being that of the mask. */
  function SitePrefixes<E>(e: E, cidrs: seq<Cidr>, four: bool): seq<Prefix<E>> {
    if cidrs == [] then [] else
    var c := cidrs[|cidrs| - 1];
    SitePrefixes(e, cidrs[..|cidrs| - 1], four)
    + if (c.maskBits == 32) != four then [] else [Prefix(if four then To4(c.ip) else To16(c.ip), c.ones, e)]
  }

  function AllPrefixes<E, N>(sites: seq<E>, entries: map<E, Site<N>>, four: bool): seq<Prefix<E>>
    requires forall e :: e in sites ==> e in entries
  {
    if sites == [] then [] else
    var e := sites[|sites| - 1];
    AllPrefixes(sites[..|sites| - 1], entries, four) + SitePrefixes(e, entries[e].cidrs, four)
  }

  // ---- Lookup ----

  function SitesOf<E, N>(t: Tables<E, N>, tenant: N): seq<E> {
    if tenant in t.byTenant then t.byTenant[tenant] else []
  }

  ghost predicate SitesKnown<E, N>(t: Tables<E, N>) {
    forall tenant, e :: tenant in t.byTenant && e in t.byTenant[tenant] ==> e in t.entries
  }

  /** Longest-prefix scan of the tenant's sites in the family of the destination. */
  function Route<E, N>(t: Tables<E, N>, tenant: N, dst: Ip): Option<E>
    requires SitesKnown(t)
  {
    var four := To4(dst) != [];
    var prefixes := AllPrefixes(SitesOf(t, tenant), t.entries, four);
    var best := Scan(prefixes, if four then To4(dst) else To16(dst), if four then 32 else 128);
    if best.None? then None else Some(best.value.value)
  }

  /** Position of the site in the tenant's list, or its length. */
  ghost function Find<E, N>(sites: seq<E>, entries: map<E, Site<N>>, site: N): (i: nat)
    requires forall e :: e in sites ==> e in entries
    ensures i <= |sites|
    ensures i < |sites| ==> entries[sites[i]].site == site
    ensures forall j :: 0 <= j < i ==> entries[sites[j]].site != site
  {
    if sites == [] then 0 else if entries[sites[0]].site == site then 0 else 1 + Find(sites[1..], entries, site)
  }

  // ---- Changes ----

  /** removeLocked: the address is dropped from bySrc whoever it belongs to. */
  ghost function Remove<E, N>(t: Tables<E, N>, tenant: N, site: N): Tables<E, N>
    requires SitesKnown(t)
  {
    var sites := SitesOf(t, tenant);
    var i := Find(sites, t.entries, site);
    if i == |sites| then t else RemoveAt(t, tenant, i)
  }

  ghost function RemoveAt<E, N>(t: Tables<E, N>, tenant: N, i: nat): Tables<E, N>
    requires SitesKnown(t) && i < |SitesOf(t, tenant)|
  {
    var sites := SitesOf(t, tenant);
    Tables(t.entries - {sites[i]}, t.bySrc - {t.entries[sites[i]].addr}, t.byTenant[tenant := Without(sites, i)])
  }

  ghost function Register<E, N>(t: Tables<E, N>, e: E, s: Site<N>): Tables<E, N>
    requires SitesKnown(t)
  {
    Append(Remove(t, s.tenant, s.site), e, s)
  }

  ghost function UpdateCidrs<E, N>(t: Tables<E, N>, tenant: N, site: N, cidrs: seq<Cidr>): Tables<E, N>
    requires SitesKnown(t)
  {
    var sites := SitesOf(t, tenant);
    var i := Find(sites, t.entries, site);
    if i == |sites| then t else t.(entries := t.entries[sites[i] := t.entries[sites[i]].(cidrs := cidrs)])
  }

  // ---- What every change keeps ----

  ghost predicate SameSite<N>(s: Site<N>, s': Site<N>) {
    s.tenant == s'.tenant && s.site == s'.site
  }

  /** The tenant's own entries, one for each site name. */
  ghost predicate ListValid<E, N>(entries: map<E, Site<N>>, tenant: N, sites: seq<E>) {
    && (forall e :: e in sites ==> e in entries && entries[e].tenant == tenant)
    && (forall i, j :: 0 <= i < j < |sites| ==> entries[sites[i]].site != entries[sites[j]].site)
  }

  /** Every entry is listed under its tenant. */
  ghost predicate ListsValid<E, N>(t: Tables<E, N>) {
    && (forall tenant :: tenant in t.byTenant ==> ListValid(t.entries, tenant, t.byTenant[tenant]))
    && (forall e :: e in t.entries ==> e in SitesOf(t, t.entries[e].tenant))
  }

  /** bySrc points only at live entries, each under its own address. */
  ghost predicate SrcValid<E, N>(t: Tables<E, N>) {
    forall a :: a in t.bySrc ==> t.bySrc[a] in t.entries && t.entries[t.bySrc[a]].addr == a
  }

  ghost predicate TablesValid<E, N>(t: Tables<E, N>) {
    SitesKnown(t) && ListsValid(t) && SrcValid(t)
  }

  /** At most one entry answers to a (tenant, site) pair, and Find finds it. */
  lemma OneEntryPerSite<E, N>(t: Tables<E, N>, e: E)
    requires TablesValid(t) && e in t.entries
    ensures var sites := SitesOf(t, t.entries[e].tenant);
            var i := Find(sites, t.entries, t.entries[e].site);
            i < |sites| && sites[i] == e
  {
    var sites := SitesOf(t, t.entries[e].tenant);
    var j :| 0 <= j < |sites| && sites[j] == e;
    FindInList(t.entries, t.entries[e].tenant, sites, j);
  }

  lemma FindInList<E, N>(entries: map<E, Site<N>>, tenant: N, sites: seq<E>, j: nat)
    requires ListValid(entries, tenant, sites) && j < |sites|
    ensures Find(sites, entries, entries[sites[j]].site) == j
  {
    hide Find;
    var i := Find(sites, entries, entries[sites[j]].site);
    assert i < |sites| ==> entries[sites[i]].site == entries[sites[j]].site;
  }

  lemma WithoutValid<E, N>(entries: map<E, Site<N>>, tenant: N, sites: seq<E>, i: nat)
    requires ListValid(entries, tenant, sites) && i < |sites|
    ensures ListValid(entries - {sites[i]}, tenant, Without(sites, i))
  {
    var rest := Without(sites, i);
    forall j | 0 <= j < |rest|
      ensures rest[j] == sites[if j < i then j else j + 1] && rest[j] != sites[i]
    {
    }
  }

  lemma OtherListValid<E, N>(entries: map<E, Site<N>>, gone: E, other: N, sites: seq<E>)
    requires ListValid(entries, other, sites) && gone in entries && entries[gone].tenant != other
    ensures ListValid(entries - {gone}, other, sites)
  {
  }

  lemma KnownFromLists<E, N>(t: Tables<E, N>)
    requires forall tenant :: tenant in t.byTenant ==> ListValid(t.entries, tenant, t.byTenant[tenant])
    ensures SitesKnown(t)
  {
    forall tenant, e | tenant in t.byTenant && e in t.byTenant[tenant]
      ensures e in t.entries
    {
      assert ListValid(t.entries, tenant, t.byTenant[tenant]);
    }
  }

  lemma RemoveAtLists<E, N>(t: Tables<E, N>, tenant: N, i: nat)
    requires TablesValid(t) && i < |SitesOf(t, tenant)|
    ensures var t' := RemoveAt(t, tenant, i);
            forall other :: other in t'.byTenant ==> ListValid(t'.entries, other, t'.byTenant[other])
  {
    hide Without, ListValid;
    var sites := SitesOf(t, tenant);
    Listed(t, tenant, i);
    WithoutValid(t.entries, tenant, sites, i);
    forall other | other in t.byTenant && other != tenant
      ensures ListValid(t.entries - {sites[i]}, other, t.byTenant[other])
    {
      OtherListValid(t.entries, sites[i], other, t.byTenant[other]);
    }
  }

  lemma RemoveAtMembers<E, N>(t: Tables<E, N>, tenant: N, i: nat)
    requires TablesValid(t) && i < |SitesOf(t, tenant)|
    ensures var t' := RemoveAt(t, tenant, i);
            forall e :: e in t'.entries ==> e in SitesOf(t', t'.entries[e].tenant)
  {
    hide Without, ListValid;
    var t' := RemoveAt(t, tenant, i);
    forall e | e in t'.entries
      ensures e in SitesOf(t', t'.entries[e].tenant)
    {
      if t.entries[e].tenant == tenant {
        WithoutMembers(SitesOf(t, tenant), i, e);
      }
    }
  }

  lemma RemoveAtKeeps<E, N>(t: Tables<E, N>, tenant: N, i: nat)
    requires TablesValid(t) && i < |SitesOf(t, tenant)|
    ensures TablesValid(RemoveAt(t, tenant, i))
  {
    hide Without, ListValid;
    RemoveAtLists(t, tenant, i);
    KnownFromLists(RemoveAt(t, tenant, i));
    RemoveAtMembers(t, tenant, i);
  }

  /** The entry leaves, everything else stays. */
  lemma RemoveKeeps<E, N>(t: Tables<E, N>, tenant: N, site: N)
    requires TablesValid(t)
    ensures var t' := Remove(t, tenant, site);
      && TablesValid(t')
      && (forall e :: e in t'.entries ==>
            && e in t.entries && t'.entries[e] == t.entries[e]
            && !(t.entries[e].tenant == tenant && t.entries[e].site == site))
      && (forall e :: e in t.entries && !(t.entries[e].tenant == tenant && t.entries[e].site == site) ==>
            e in t'.entries)
      && t'.bySrc.Keys <= t.bySrc.Keys && (forall a :: a in t'.bySrc ==> t'.bySrc[a] == t.bySrc[a])
  {
    hide Find, ListValid, Without;
    var sites := SitesOf(t, tenant);
    var i := Find(sites, t.entries, site);
    if i < |sites| {
      RemoveAtKeeps(t, tenant, i);
      Listed(t, tenant, i);
    }
    forall e | e in t.entries && t.entries[e].tenant == tenant && t.entries[e].site == site
      ensures i < |sites| && sites[i] == e
    {
      OneEntryPerSite(t, e);
    }
  }

  lemma Listed<E, N>(t: Tables<E, N>, tenant: N, i: nat)
    requires TablesValid(t) && i < |SitesOf(t, tenant)|
    ensures SitesOf(t, tenant)[i] in t.entries && t.entries[SitesOf(t, tenant)[i]].tenant == tenant
  {
    assert ListValid(t.entries, tenant, t.byTenant[tenant]);
  }

  /** The second half of Register: one more entry at the end of its tenant's list. */
  ghost function Append<E, N>(t: Tables<E, N>, e: E, s: Site<N>): Tables<E, N> {
    Tables(t.entries[e := s], t.bySrc[s.addr := e], t.byTenant[s.tenant := SitesOf(t, s.tenant) + [e]])
  }

  ghost predicate NoSuchSite<E, N>(t: Tables<E, N>, s: Site<N>) {
    forall e :: e in t.entries ==> !SameSite(t.entries[e], s)
  }

  lemma LongerListValid<E, N>(entries: map<E, Site<N>>, e: E, s: Site<N>, sites: seq<E>)
    requires ListValid(entries, s.tenant, sites) && e !in entries
    requires forall f :: f in entries ==> !SameSite(entries[f], s)
    ensures ListValid(entries[e := s], s.tenant, sites + [e])
  {
  }

  lemma AppendKeeps<E, N>(t: Tables<E, N>, e: E, s: Site<N>)
    requires TablesValid(t) && e !in t.entries && NoSuchSite(t, s)
    ensures TablesValid(Append(t, e, s))
  {
    hide ListValid;
    var t' := Append(t, e, s);
    assert ListValid(t.entries, s.tenant, SitesOf(t, s.tenant)) by {
      NoSites<E, N>(t.entries, s.tenant);
    }
    LongerListValid(t.entries, e, s, SitesOf(t, s.tenant));
    forall other | other in t.byTenant && other != s.tenant
      ensures ListValid(t'.entries, other, t.byTenant[other])
    {
      StillValid(t.entries, e, s, other, t.byTenant[other]);
    }
    KnownFromLists(t');
  }

  lemma NoSites<E, N>(entries: map<E, Site<N>>, tenant: N)
    ensures ListValid(entries, tenant, [])
  {
  }

  lemma StillValid<E, N>(entries: map<E, Site<N>>, e: E, s: Site<N>, other: N, sites: seq<E>)
    requires ListValid(entries, other, sites) && e !in entries
    ensures ListValid(entries[e := s], other, sites)
  {
  }

  lemma RegisterKeeps<E, N>(t: Tables<E, N>, e: E, s: Site<N>)
    requires TablesValid(t) && e !in t.entries
    ensures TablesValid(Register(t, e, s))
  {
    hide ListsValid, SrcValid, Remove;
    RemoveKeeps(t, s.tenant, s.site);
    var t1 := Remove(t, s.tenant, s.site);
    forall f | f in t1.entries
      ensures !SameSite(t1.entries[f], s)
    {
      assert t1.entries[f] == t.entries[f];
    }
    AppendKeeps(Remove(t, s.tenant, s.site), e, s);
  }

  lemma ChangedListValid<E, N>(entries: map<E, Site<N>>, e: E, cidrs: seq<Cidr>, tenant: N, sites: seq<E>)
    requires ListValid(entries, tenant, sites) && e in entries
    ensures ListValid(entries[e := entries[e].(cidrs := cidrs)], tenant, sites)
  {
  }

  lemma UpdateKeeps<E, N>(t: Tables<E, N>, tenant: N, site: N, cidrs: seq<Cidr>)
    requires TablesValid(t)
    ensures TablesValid(UpdateCidrs(t, tenant, site, cidrs))
  {
    hide ListValid, Find;
    var t' := UpdateCidrs(t, tenant, site, cidrs);
    var sites := SitesOf(t, tenant);
    var i := Find(sites, t.entries, site);
    if i < |sites| {
      forall other | other in t'.byTenant
        ensures ListValid(t'.entries, other, t'.byTenant[other])
      {
        ChangedListValid(t.entries, sites[i], cidrs, other, t.byTenant[other]);
      }
    }
  }

  // ---- Which site a destination leads to, in numbers ----

  /** The first twelve bytes of an IPv4-mapped IPv6 address (section 2.5.5.2 of RFC 4291). */
  const MAPPED: seq<byte> := [0, 0, 0, 0, 0, 0, 0, 0, 0, 0, 0xff, 0xff]

  /** Which addresses have an IPv4 form, and the two forms of one address. */
  lemma FamilyMeaning(ip: Ip)
    ensures To4(ip) != [] <==> |ip| == 4 || (|ip| == 16 && ip[..12] == MAPPED)
    ensures To4(ip) != [] ==> |To4(ip)| == 4 && To16(ip) == MAPPED + To4(ip)
    ensures |ip| == 16 ==> To16(ip) == ip
    ensures To16(ip) != [] <==> |ip| == 4 || |ip| == 16
  {
    if |ip| == 16 {
      assert ip == ip[..12] + ip[12..16];
    }
  }

  /** The prefix that subnet c of e stands for in a family. */
  function PrefixOf<E>(e: E, c: Cidr, four: bool): Prefix<E> {
    Prefix(if four then To4(c.ip) else To16(c.ip), c.ones, e)
  }

  /** The destination is in subnet c of the site, which is of its family. */
  ghost predicate Reaches<E>(e: E, c: Cidr, dst: Ip) {
    var four := To4(dst) != [];
    && (c.maskBits == 32) == four
    && InNet(PrefixOf(e, c, four), if four then To4(dst) else To16(dst), if four then 32 else 128)
  }

  lemma {:induction false} SitePrefixesAre<E>(e: E, cidrs: seq<Cidr>, four: bool, p: Prefix<E>)
    ensures p in SitePrefixes(e, cidrs, four) <==>
              exists c :: c in cidrs && (c.maskBits == 32) == four && p == PrefixOf(e, c, four)
  {
    hide To4, To16;
    if cidrs != [] {
      var init, c := cidrs[..|cidrs| - 1], cidrs[|cidrs| - 1];
      SitePrefixesAre(e, init, four, p);
      assert cidrs == init + [c];
    }
  }

  lemma {:induction false} AllPrefixesAre<E, N>(sites: seq<E>, entries: map<E, Site<N>>, four: bool, p: Prefix<E>)
    requires forall e :: e in sites ==> e in entries
    ensures p in AllPrefixes(sites, entries, four) <==>
              p.value in sites && p in SitePrefixes(p.value, entries[p.value].cidrs, four)
  {
    hide SitePrefixes;
    if sites != [] {
      var init, e := sites[..|sites| - 1], sites[|sites| - 1];
      AllPrefixesAre(init, entries, four, p);
      assert sites == init + [e];
      SiteOfPrefix(e, entries[e].cidrs, four, p);
    }
  }

  lemma SiteOfPrefix<E>(e: E, cidrs: seq<Cidr>, four: bool, p: Prefix<E>)
    ensures p in SitePrefixes(e, cidrs, four) ==> p.value == e
  {
    hide SitePrefixes, To4, To16;
    SitePrefixesAre(e, cidrs, four, p);
  }

  /** The site and subnet behind a prefix of the tenant, and the prefix behind a subnet. */
  lemma PrefixIsAnnounced<E, N>(t: Tables<E, N>, tenant: N, four: bool, p: Prefix<E>)
    requires SitesKnown(t)
    ensures p in AllPrefixes(SitesOf(t, tenant), t.entries, four) <==>
              p.value in SitesOf(t, tenant)
              && exists c ::
                   c in t.entries[p.value].cidrs && (c.maskBits == 32) == four && p == PrefixOf(p.value, c, four)
  {
    hide AllPrefixes, SitePrefixes, PrefixOf;
    AllPrefixesAre(SitesOf(t, tenant), t.entries, four, p);
    if p.value in SitesOf(t, tenant) {
      SitePrefixesAre(p.value, t.entries[p.value].cidrs, four, p);
    }
  }

  /**
   * A destination is routed exactly when a site of the tenant announces a subnet it is in, and then to a site with a
   * longest such subnet.
   */
  lemma RouteIsLongest<E, N>(t: Tables<E, N>, tenant: N, dst: Ip)
    requires SitesKnown(t)
    ensures Route(t, tenant, dst).None? <==>
              forall e, c :: e in SitesOf(t, tenant) && c in t.entries[e].cidrs ==> !Reaches(e, c, dst)
    ensures Route(t, tenant, dst).Some? ==>
              var to := Route(t, tenant, dst).value;
              to in SitesOf(t, tenant)
              && exists c :: c in t.entries[to].cidrs && Reaches(to, c, dst)
                   && forall e, c' :: e in SitesOf(t, tenant) && c' in t.entries[e].cidrs && Reaches(e, c', dst) ==>
                        c'.ones <= c.ones
  {
    var four := To4(dst) != [];
    var ip, bits := if four then To4(dst) else To16(dst), if four then 32 else 128;
    var ps := AllPrefixes(SitesOf(t, tenant), t.entries, four);
    hide AllPrefixes, Scan, InNet, To4, To16;
    ScanIsLongest(ps, ip, bits);
    forall e, c | e in SitesOf(t, tenant) && c in t.entries[e].cidrs && Reaches(e, c, dst)
      ensures PrefixOf(e, c, four) in ps && InNet(PrefixOf(e, c, four), ip, bits)
    {
      PrefixIsAnnounced(t, tenant, four, PrefixOf(e, c, four));
    }
    if Scan(ps, ip, bits).Some? {
      var k :| 0 <= k < |ps| && IsBest(ps, k, ip, bits) && ps[k] == Scan(ps, ip, bits).value;
      PrefixIsAnnounced(t, tenant, four, ps[k]);
      var c :| c in t.entries[ps[k].value].cidrs && (c.maskBits == 32) == four
               && ps[k] == PrefixOf(ps[k].value, c, four);
      assert Reaches(ps[k].value, c, dst);
    }
  }

  /** A route leads to a live entry of the tenant. */
  lemma RoutedIsListed<E, N>(t: Tables<E, N>, tenant: N, dst: Ip)
    requires TablesValid(t) && Route(t, tenant, dst).Some?
    ensures var to := Route(t, tenant, dst).value;
            to in SitesOf(t, tenant) && to in t.entries && t.entries[to].tenant == tenant
  {
    hide Route, Reaches, ListsValid;
    RouteIsLongest(t, tenant, dst);
    var i :| 0 <= i < |SitesOf(t, tenant)| && SitesOf(t, tenant)[i] == Route(t, tenant, dst).value;
    Listed(t, tenant, i);
  }

  // ---- Runs ----

  datatype Op<N> =
    | RegisterOp(s: Site<N>)
    | DeregisterOp(tenant: N, site: N)
    | UpdateOp(tenant: N, site: N, cidrs: seq<Cidr>)

  /** One change; `id` identifies the entry a registration makes. */
  ghost function Apply<N>(t: Tables<nat, N>, op: Op<N>, id: nat): Tables<nat, N>
    requires SitesKnown(t)
  {
    match op
    case RegisterOp(s) => Register(t, id, s)
    case DeregisterOp(tenant, site) => Remove(t, tenant, site)
    case UpdateOp(tenant, site, cidrs) => UpdateCidrs(t, tenant, site, cidrs)
  }

  ghost predicate AllBefore<N>(t: Tables<nat, N>, n: nat) {
    forall e :: e in t.entries ==> e < n
  }

  lemma ApplyKeeps<N>(t: Tables<nat, N>, op: Op<N>, id: nat)
    requires TablesValid(t) && AllBefore(t, id)
    ensures TablesValid(Apply(t, op, id)) && AllBefore(Apply(t, op, id), id + 1)
  {
    match op
    case RegisterOp(s) =>
      RegisterKeeps(t, id, s);
      RemoveKeeps(t, s.tenant, s.site);
    case DeregisterOp(tenant, site) => RemoveKeeps(t, tenant, site);
    case UpdateOp(tenant, site, cidrs) => UpdateKeeps(t, tenant, site, cidrs);
  }

  /** The tables after a run; the entry made by the i-th change is i. */
  ghost function Run<N>(ops: seq<Op<N>>): (t: Tables<nat, N>)
    ensures TablesValid(t) && AllBefore(t, |ops|)
  {
    if ops == [] then EmptyTables() else
    var t := Run(ops[..|ops| - 1]);
    ApplyKeeps(t, ops[|ops| - 1], |ops| - 1);
    Apply(t, ops[|ops| - 1], |ops| - 1)
  }

  /** After any run: one entry for each (tenant, site), and no address leads to a removed site. */
  lemma RunTablesAgree<N>(ops: seq<Op<N>>)
    ensures var t := Run(ops);
      && (forall e, f :: e in t.entries && f in t.entries && SameSite(t.entries[e], t.entries[f]) ==> e == f)
      && (forall a :: a in t.bySrc ==> t.bySrc[a] in t.entries && t.entries[t.bySrc[a]].addr == a)
      && (forall tenant, e :: e in SitesOf(t, tenant) <==> e in t.entries && t.entries[e].tenant == tenant)
  {
    var t := Run(ops);
    forall e, f | e in t.entries && f in t.entries && SameSite(t.entries[e], t.entries[f])
      ensures e == f
    {
      OneEntryPerSite(t, e);
      OneEntryPerSite(t, f);
    }
    forall tenant, e | e in SitesOf(t, tenant)
      ensures e in t.entries && t.entries[e].tenant == tenant
    {
      assert ListValid(t.entries, tenant, SitesOf(t, tenant));
    }
  }

  // ---- Which live sites are reachable by address ----

  /** Every live entry is the one its address leads to. */
  ghost predicate Indexed<E, N>(t: Tables<E, N>) {
    forall e :: e in t.entries ==> t.entries[e].addr in t.bySrc && t.bySrc[t.entries[e].addr] == e
  }

  /** No live entry other than the one to be replaced has the address. */
  ghost predicate AddressFree<E, N>(t: Tables<E, N>, s: Site<N>) {
    forall e :: e in t.entries && t.entries[e].addr == s.addr ==> SameSite(t.entries[e], s)
  }

  lemma RemoveKeepsIndexed<E, N>(t: Tables<E, N>, tenant: N, site: N)
    requires TablesValid(t) && Indexed(t)
    ensures Indexed(Remove(t, tenant, site))
  {
    hide ListsValid, ListValid, Find, Without;
    var sites := SitesOf(t, tenant);
    var i := Find(sites, t.entries, site);
    if i < |sites| {
      Listed(t, tenant, i);
    }
  }

  lemma AppendIndexed<E, N>(t: Tables<E, N>, e: E, s: Site<N>)
    requires SrcValid(t) && Indexed(t) && e !in t.entries
    ensures Indexed(Append(t, e, s)) <==> forall f :: f in t.entries ==> t.entries[f].addr != s.addr
  {
    var t' := Append(t, e, s);
    if f :| f in t.entries && t.entries[f].addr == s.addr {
      assert f in t'.entries && t'.entries[f].addr == s.addr && t'.bySrc[s.addr] == e;
    }
  }

  /** A registration keeps every live site reachable exactly when its address is free. */
  lemma RegisterIndexedExactly<E, N>(t: Tables<E, N>, e: E, s: Site<N>)
    requires TablesValid(t) && Indexed(t) && e !in t.entries
    ensures Indexed(Register(t, e, s)) <==> AddressFree(t, s)
  {
    hide ListsValid, Remove, Indexed;
    RemoveKeeps(t, s.tenant, s.site);
    RemoveKeepsIndexed(t, s.tenant, s.site);
    var t1 := Remove(t, s.tenant, s.site);
    AppendIndexed(t1, e, s);
    forall f | f in t.entries
      ensures f in t1.entries <==> !SameSite(t.entries[f], s)
    {
    }
    forall f | f in t1.entries
      ensures t1.entries[f] == t.entries[f] && !SameSite(t.entries[f], s)
    {
    }
  }

  /** Every registration of the run uses an address that is free at that moment. */
  ghost predicate FreeAddresses<N>(ops: seq<Op<N>>) {
    ops == [] ||
    (FreeAddresses(ops[..|ops| - 1]) &&
     (ops[|ops| - 1].RegisterOp? ==> AddressFree(Run(ops[..|ops| - 1]), ops[|ops| - 1].s)))
  }

  ghost predicate AlwaysIndexed<N>(ops: seq<Op<N>>) {
    forall n :: 0 <= n <= |ops| ==> Indexed(Run(ops[..n]))
  }

  lemma LastIndexed<N>(ops: seq<Op<N>>)
    requires ops != [] && Indexed(Run(ops[..|ops| - 1]))
    ensures var t, op := Run(ops[..|ops| - 1]), ops[|ops| - 1];
            Indexed(Run(ops)) <==> (op.RegisterOp? ==> AddressFree(t, op.s))
  {
    hide ListsValid, SrcValid, Remove, Register, AddressFree;
    var t, op := Run(ops[..|ops| - 1]), ops[|ops| - 1];
    match op
    case RegisterOp(s) => RegisterIndexedExactly(t, |ops| - 1, s);
    case DeregisterOp(tenant, site) => RemoveKeepsIndexed(t, tenant, site);
    case UpdateOp(tenant, site, cidrs) => UpdateKeepsIndexed(t, tenant, site, cidrs);
  }

  lemma UpdateKeepsIndexed<E, N>(t: Tables<E, N>, tenant: N, site: N, cidrs: seq<Cidr>)
    requires SitesKnown(t)
    ensures Indexed(UpdateCidrs(t, tenant, site, cidrs)) <==> Indexed(t)
  {
    hide Find;
    var t' := UpdateCidrs(t, tenant, site, cidrs);
    assert t'.entries.Keys == t.entries.Keys;
    assert forall e :: e in t.entries ==> t'.entries[e].addr == t.entries[e].addr;
  }

  /** All live sites stay reachable throughout a run exactly when no registration takes an address in use. */
  lemma {:induction false} AlwaysIndexedExactly<N>(ops: seq<Op<N>>)
    ensures AlwaysIndexed(ops) <==> FreeAddresses(ops)
  {
    hide Indexed, AddressFree, Run;
    if ops == [] {
      assert ops[..0] == [];
      NothingIndexed<N>();
    } else {
      var init := ops[..|ops| - 1];
      AlwaysIndexedExactly(init);
      assert forall n :: 0 <= n <= |init| ==> ops[..n] == init[..n];
      assert init[..|init|] == init && ops[..|ops|] == ops;
      assert AlwaysIndexed(ops) ==> Indexed(Run(ops[..|ops|]));
      assert AlwaysIndexed(init) ==> Indexed(Run(init[..|init|]));
      if AlwaysIndexed(init) {
        LastIndexed(ops);
        assert Indexed(Run(ops)) ==> AlwaysIndexed(ops);
      } else {
        var n :| 0 <= n <= |init| && !Indexed(Run(init[..n]));
        assert ops[..n] == init[..n];
      }
    }
  }

  lemma NothingIndexed<N>()
    ensures Indexed(Run<N>([]))
  {
  }

  lemma FirstSite<N>(e: nat, s: Site<N>)
    ensures Register(EmptyTables(), e, s) == Tables(map[e := s], map[s.addr := e], map[s.tenant := [e]])
  {
    var t := EmptyTables<nat, N>();
    assert SitesOf(t, s.tenant) == [] && Remove(t, s.tenant, s.site) == t;
    assert [] + [e] == [e];
  }

  /**
   * Two sites sharing an address: removing the first deletes the address of the second, which stays live and
   * keeps getting the traffic for its subnet but is unreachable from its own address.
   */
  lemma RemovalByAddressOrphans<N>(tenant: N, a: N, b: N, addr: N, c: Cidr)
    requires a != b && FourCidr(c)
    ensures var t := Run([RegisterOp(Site(tenant, a, addr, [])), RegisterOp(Site(tenant, b, addr, [c])),
                          DeregisterOp(tenant, a)]);
      && 1 in t.entries && t.entries[1].site == b && addr !in t.bySrc
      && Route(t, tenant, c.ip) == Some(1)
  {
    var s0, s1 := Site(tenant, a, addr, []), Site(tenant, b, addr, [c]);
    OrphanRun(s0, s1);
    hide Run, Scan;
    RouteToLast(Run([RegisterOp(s0), RegisterOp(s1), DeregisterOp(tenant, a)]), tenant, c);
  }

  lemma OrphanRun<N>(s0: Site<N>, s1: Site<N>)
    requires s0.tenant == s1.tenant && s0.site != s1.site && s0.addr == s1.addr
    ensures var t := Run([RegisterOp(s0), RegisterOp(s1), DeregisterOp(s0.tenant, s0.site)]);
      1 in t.entries && t.entries[1] == s1 && s1.addr !in t.bySrc && SitesOf(t, s1.tenant) == [1]
  {
    var first, second, third := RegisterOp(s0), RegisterOp(s1), DeregisterOp(s0.tenant, s0.site);
    hide Run, ListsValid, SrcValid, AllBefore;
    RunNext([], first);
    RunNext([first], second);
    RunNext([first, second], third);
    assert [] + [first] == [first] && [first] + [second] == [first, second];
    assert [first, second] + [third] == [first, second, third];
    FirstSite(0, s0);
    SecondSite(0, s0, 1, s1);
    hide Register, Remove, SitesOf, TablesValid;
  }

  lemma RunNext<N>(ops: seq<Op<N>>, op: Op<N>)
    ensures Run(ops + [op]) == Apply(Run(ops), op, |ops|)
    ensures Run<N>([]) == EmptyTables()
  {
    assert (ops + [op])[..|ops|] == ops;
    hide Apply, TablesValid, AllBefore;
  }

  lemma SecondSite<N>(e: nat, s: Site<N>, e': nat, s': Site<N>)
    requires e != e' && s.tenant == s'.tenant && s.site != s'.site && s.addr == s'.addr
    ensures var t := Register(Tables(map[e := s], map[s.addr := e], map[s.tenant := [e]]), e', s');
            SitesKnown(t) && e' in Remove(t, s.tenant, s.site).entries
            && SitesOf(Remove(t, s.tenant, s.site), s.tenant) == [e']
            && Remove(t, s.tenant, s.site).entries[e'] == s' && s.addr !in Remove(t, s.tenant, s.site).bySrc
  {
    var t0 := Tables(map[e := s], map[s.addr := e], map[s.tenant := [e]]);
    assert SitesOf(t0, s.tenant) == [e] && Find([e], t0.entries, s'.site) == 1;
    var t1 := Append(t0, e', s');
    assert SitesOf(t1, s.tenant) == [e, e'] && Find([e, e'], t1.entries, s.site) == 0;
  }

  // ---- Does the order of registration matter? ----

  /** An IPv4 subnet. */
  predicate FourCidr(c: Cidr) {
    |c.ip| == 4 && c.maskBits == 32 && 0 <= c.ones <= 32
  }

  predicate NoneOr(cidrs: seq<Cidr>, c: Cidr) {
    cidrs == [] || cidrs == [c]
  }

  /** When the last site of the list announces a subnet only, addresses in it lead there. */
  lemma RouteToLast<E, N>(t: Tables<E, N>, tenant: N, c: Cidr)
    requires SitesKnown(t) && SitesOf(t, tenant) != [] && FourCidr(c)
    requires var sites := SitesOf(t, tenant);
      && t.entries[sites[|sites| - 1]].cidrs == [c]
      && forall i :: 0 <= i < |sites| - 1 ==> NoneOr(t.entries[sites[i]].cidrs, c)
    ensures Route(t, tenant, c.ip) == Some(SitesOf(t, tenant)[|SitesOf(t, tenant)| - 1])
  {
    var sites := SitesOf(t, tenant);
    var last := sites[|sites| - 1];
    var init := AllPrefixes(sites[..|sites| - 1], t.entries, true);
    var p := Prefix(c.ip, c.ones, last);
    SiteOfOne(last, c);
    assert AllPrefixes(sites, t.entries, true) == init + [p];
    OnesOfAll(sites[..|sites| - 1], t.entries, c);
    hide AllPrefixes, SitePrefixes, Scan;
    ScanTakesLast(init, p, c.ip);
  }

  lemma SiteOfOne<E>(e: E, c: Cidr)
    requires FourCidr(c)
    ensures SitePrefixes(e, [c], true) == [Prefix(c.ip, c.ones, e)]
  {
    assert [c][..0] == [];
  }

  /** Among prefixes of one length the scan takes the last that covers the address. */
  lemma ScanTakesLast<V>(ps: seq<Prefix<V>>, p: Prefix<V>, ip: Ip)
    requires Covers(p, ip, 32) && forall q :: q in ps ==> q.ones == p.ones
    ensures Scan(ps + [p], ip, 32) == Some(p)
  {
    hide Covers;
    assert (ps + [p])[..|ps|] == ps;
  }

  lemma {:induction false} OnesOfAll<E, N>(sites: seq<E>, entries: map<E, Site<N>>, c: Cidr)
    requires forall e :: e in sites ==> e in entries && NoneOr(entries[e].cidrs, c)
    ensures forall p :: p in AllPrefixes(sites, entries, true) ==> p.ones == c.ones
  {
    if sites != [] {
      OnesOfAll(sites[..|sites| - 1], entries, c);
      OnesOfSite(sites[|sites| - 1], entries[sites[|sites| - 1]].cidrs, c);
    }
  }

  lemma OnesOfSite<E>(e: E, cidrs: seq<Cidr>, c: Cidr)
    requires NoneOr(cidrs, c)
    ensures forall p :: p in SitePrefixes(e, cidrs, true) ==> p.ones == c.ones
  {
    if cidrs != [] {
      assert cidrs[..0] == [];
    }
  }

  /**
   * Two sites with one subnet: its traffic goes to whichever registered last, and re-registering the first, as a
   * reconnect does, turns it over.
   */
  lemma OrderDecidesTie<N>(tenant: N, a: N, b: N, addrA: N, addrB: N, c: Cidr)
    requires a != b && FourCidr(c)
    ensures var sa, sb := Site(tenant, a, addrA, [c]), Site(tenant, b, addrB, [c]);
      var ab, ba := Run([RegisterOp(sa), RegisterOp(sb)]), Run([RegisterOp(sb), RegisterOp(sa)]);
      && ab.entries == map[0 := sa, 1 := sb] && Route(ab, tenant, c.ip) == Some(1)
      && ba.entries == map[0 := sb, 1 := sa] && Route(ba, tenant, c.ip) == Some(1)
  {
    LastOfTwo(Site(tenant, a, addrA, [c]), Site(tenant, b, addrB, [c]), c);
    LastOfTwo(Site(tenant, b, addrB, [c]), Site(tenant, a, addrA, [c]), c);
  }

  lemma LastOfTwo<N>(s0: Site<N>, s1: Site<N>, c: Cidr)
    requires s0.tenant == s1.tenant && s0.site != s1.site && FourCidr(c) && s0.cidrs == s1.cidrs == [c]
    ensures var t := Run([RegisterOp(s0), RegisterOp(s1)]);
      t.entries == map[0 := s0, 1 := s1] && Route(t, s0.tenant, c.ip) == Some(1)
  {
    hide Scan;
    var ops := [RegisterOp(s0), RegisterOp(s1)];
    assert ops[..1][..0] == [] && ops[..1] == [RegisterOp(s0)];
    FirstSite(0, s0);
    assert Run(ops[..1]) == Register(EmptyTables(), 0, s0);
    var t0 := Run(ops[..1]);
    assert SitesOf(t0, s0.tenant) == [0] && Find([0], t0.entries, s1.site) == 1;
    assert Run(ops) == Append(t0, 1, s1);
    RouteToLast(Run(ops), s0.tenant, c);
  }

  /** The site announces a usable prefix with these bits. */
  ghost predicate Announces<E, N>(entries: map<E, Site<N>>, e: E, four: bool, key: Key)
    requires e in entries
  {
    AnyKey(SitePrefixes(e, entries[e].cidrs, four), if four then 32 else 128, key)
  }

  ghost predicate AnyKey<E>(ps: seq<Prefix<E>>, bits: nat, key: Key) {
    exists i :: 0 <= i < |ps| && HasKey(ps[i], bits, key)
  }

  ghost predicate HasKey<E>(p: Prefix<E>, bits: nat, key: Key) {
    Usable(p, bits) && Bits(p.ip)[..p.ones] == key
  }

  /** What the trie of one family holds after a rebuild from this list. */
  ghost function TrieOf<E, N>(sites: seq<E>, entries: map<E, Site<N>>, four: bool): Table<E>
    requires forall e :: e in sites ==> e in entries
  {
    TableOf(AllPrefixes(sites, entries, four), if four then 32 else 128)
  }

  ghost predicate AllKnown<E, N>(sites: seq<E>, entries: map<E, Site<N>>) {
    forall e :: e in sites ==> e in entries
  }

  /** No two different entries announce the same prefix. */
  ghost predicate Uncontested<E, N>(sites: seq<E>, entries: map<E, Site<N>>, four: bool)
    requires AllKnown(sites, entries)
  {
    forall e, f, key ::
      e in sites && f in sites && Announces(entries, e, four, key) && Announces(entries, f, four, key) ==> e == f
  }

  /** Every order of the list gives the same trie. */
  ghost predicate OrderFree<E(!new), N>(sites: seq<E>, entries: map<E, Site<N>>, four: bool)
    requires AllKnown(sites, entries)
  {
    forall other: seq<E> :: multiset(other) == multiset(sites) ==>
      AllKnown(other, entries) && TrieOf(other, entries, four) == TrieOf(sites, entries, four)
  }

  /** What the prefixes of one more site do to a table: its keys lead to it, the others stay. */
  lemma {:induction false} TableOfSite<E>(ps: seq<Prefix<E>>, e: E, cidrs: seq<Cidr>, four: bool, bits: nat, key: Key)
    ensures var t0, t := TableOf(ps, bits), TableOf(ps + SitePrefixes(e, cidrs, four), bits);
      if AnyKey(SitePrefixes(e, cidrs, four), bits, key) then key in t && t[key] == e
      else (key in t <==> key in t0) && (key in t ==> t[key] == t0[key])
  {
    hide Bits, Usable, To4, To16, AnyKey, TableOf;
    if cidrs == [] {
      assert ps + [] == ps;
      NoKey<E>(bits, key);
    } else {
      var init, all := SitePrefixes(e, cidrs[..|cidrs| - 1], four), SitePrefixes(e, cidrs, four);
      TableOfSite(ps, e, cidrs[..|cidrs| - 1], four, bits, key);
      LastCidr(e, cidrs, four);
      hide SitePrefixes;
      if all != init {
        var p := all[|all| - 1];
        assert ps + all == ps + init + [p];
        TableOfAppend(ps + init, p, bits);
        OneMoreKey(init, p, bits, key);
      }
    }
  }

  /** The last subnet adds one prefix to its own family and nothing to the other. */
  lemma LastCidr<E>(e: E, cidrs: seq<Cidr>, four: bool)
    requires cidrs != []
    ensures var init, all := SitePrefixes(e, cidrs[..|cidrs| - 1], four), SitePrefixes(e, cidrs, four);
      all == init || (all != [] && all == init + [all[|all| - 1]] && all[|all| - 1].value == e)
  {
    hide To4, To16;
    var init := SitePrefixes(e, cidrs[..|cidrs| - 1], four);
    assert init + [] == init;
  }

  lemma NoKey<E>(bits: nat, key: Key)
    ensures !AnyKey<E>([], bits, key)
  {
  }

  lemma OneMoreKey<E>(ps: seq<Prefix<E>>, p: Prefix<E>, bits: nat, key: Key)
    ensures AnyKey(ps + [p], bits, key) <==> AnyKey(ps, bits, key) || HasKey(p, bits, key)
  {
    hide HasKey;
    if AnyKey(ps, bits, key) {
      var i :| 0 <= i < |ps| && HasKey(ps[i], bits, key);
      assert (ps + [p])[i] == ps[i];
    }
    assert (ps + [p])[|ps|] == p;
  }

  ghost predicate LastAnnouncer<E, N>(sites: seq<E>, entries: map<E, Site<N>>, four: bool, key: Key, i: nat)
    requires AllKnown(sites, entries) && i < |sites|
  {
    Announces(entries, sites[i], four, key) && forall j :: i < j < |sites| ==> !Announces(entries, sites[j], four, key)
  }

  lemma NoTrie<E, N>(entries: map<E, Site<N>>, four: bool)
    ensures TrieOf([], entries, four) == map[]
  {
  }

  lemma TrieStep<E, N>(sites: seq<E>, entries: map<E, Site<N>>, four: bool, key: Key)
    requires AllKnown(sites, entries) && sites != []
    ensures var t0, t := TrieOf(sites[..|sites| - 1], entries, four), TrieOf(sites, entries, four);
      var last := sites[|sites| - 1];
      if Announces(entries, last, four, key) then key in t && t[key] == last
      else (key in t <==> key in t0) && (key in t ==> t[key] == t0[key])
  {
    hide TableOf, SitePrefixes, AnyKey;
    var init, last := sites[..|sites| - 1], sites[|sites| - 1];
    TableOfSite(AllPrefixes(init, entries, four), last, entries[last].cidrs, four, if four then 32 else 128, key);
  }

  /** The trie holds the announced prefixes, each leading to the last entry of the list that announces it. */
  lemma {:induction false} TrieAt<E, N>(sites: seq<E>, entries: map<E, Site<N>>, four: bool, key: Key)
    requires AllKnown(sites, entries)
    ensures key in TrieOf(sites, entries, four) <==> exists e :: e in sites && Announces(entries, e, four, key)
    ensures forall i :: 0 <= i < |sites| && LastAnnouncer(sites, entries, four, key, i) ==>
              key in TrieOf(sites, entries, four) && TrieOf(sites, entries, four)[key] == sites[i]
  {
    hide TrieOf, Announces;
    if sites == [] {
      NoTrie(entries, four);
    } else {
      var n := |sites| - 1;
      var init, last := sites[..n], sites[n];
      TrieAt(init, entries, four, key);
      TrieStep(sites, entries, four, key);
      assert forall e :: e in sites <==> e in init || e == last;
      forall i | 0 <= i < |sites| && LastAnnouncer(sites, entries, four, key, i)
        ensures key in TrieOf(sites, entries, four) && TrieOf(sites, entries, four)[key] == sites[i]
      {
        if i < n {
          assert !Announces(entries, sites[n], four, key);
          assert LastAnnouncer(init, entries, four, key, i);
        }
      }
    }
  }

  lemma FindLast<E, N>(sites: seq<E>, entries: map<E, Site<N>>, four: bool, key: Key)
    returns (i: nat)
    requires AllKnown(sites, entries) && exists e :: e in sites && Announces(entries, e, four, key)
    ensures i < |sites| && LastAnnouncer(sites, entries, four, key, i)
  {
    hide Announces;
    i := |sites| - 1;
    while !Announces(entries, sites[i], four, key)
      invariant i < |sites| && forall j :: i < j < |sites| ==> !Announces(entries, sites[j], four, key)
      decreases i
    {
      if i == 0 {
        assert false;
      }
      i := i - 1;
    }
  }

  /** The same members without a contest: the same trie. */
  lemma SameTrie<E, N>(sites: seq<E>, other: seq<E>, entries: map<E, Site<N>>, four: bool)
    requires multiset(other) == multiset(sites) && AllKnown(sites, entries) && Uncontested(sites, entries, four)
    ensures AllKnown(other, entries) && TrieOf(other, entries, four) == TrieOf(sites, entries, four)
  {
    hide TrieOf, Announces;
    Members(sites, other);
    var t, t' := TrieOf(sites, entries, four), TrieOf(other, entries, four);
    forall key: Key ensures (key in t <==> key in t') && (key in t ==> t[key] == t'[key]) {
      TrieAt(sites, entries, four, key);
      TrieAt(other, entries, four, key);
      if key in t {
        var i := FindLast(sites, entries, four, key);
        var j := FindLast(other, entries, four, key);
        assert other[j] in sites;
      }
    }
    assert t.Keys == t'.Keys;
  }

  lemma Members<E>(a: seq<E>, b: seq<E>)
    requires multiset(a) == multiset(b)
    ensures forall e :: e in a <==> e in b
  {
    assert forall e :: e in a <==> e in multiset(a);
    assert forall e :: e in b <==> e in multiset(b);
  }

  /** The list with entry k at the end: that entry gets every prefix it announces. */
  lemma MovedLast<E, N>(sites: seq<E>, entries: map<E, Site<N>>, four: bool, key: Key, k: nat)
    requires AllKnown(sites, entries) && k < |sites| && Announces(entries, sites[k], four, key)
    ensures var other := sites[..k] + sites[k + 1..] + [sites[k]];
      && multiset(other) == multiset(sites) && AllKnown(other, entries)
      && key in TrieOf(other, entries, four) && TrieOf(other, entries, four)[key] == sites[k]
  {
    hide TrieOf, Announces;
    var other := sites[..k] + sites[k + 1..] + [sites[k]];
    assert sites == sites[..k] + [sites[k]] + sites[k + 1..];
    Members(sites, other);
    assert LastAnnouncer(other, entries, four, key, |other| - 1);
    TrieAt(other, entries, four, key);
  }

  /** The trie of a family does not depend on the order of the list exactly when no prefix has two announcers. */
  lemma OrderFreeExactly<E(!new), N>(sites: seq<E>, entries: map<E, Site<N>>, four: bool)
    requires AllKnown(sites, entries)
    ensures OrderFree(sites, entries, four) <==> Uncontested(sites, entries, four)
  {
    hide TrieOf, Announces;
    if Uncontested(sites, entries, four) {
      forall other: seq<E> | multiset(other) == multiset(sites)
        ensures AllKnown(other, entries) && TrieOf(other, entries, four) == TrieOf(sites, entries, four)
      {
        SameTrie(sites, other, entries, four);
      }
    }
    if OrderFree(sites, entries, four) {
      forall e, f, key
        | e in sites && f in sites && Announces(entries, e, four, key) && Announces(entries, f, four, key)
        ensures e == f
      {
        var i :| 0 <= i < |sites| && sites[i] == e;
        var j :| 0 <= j < |sites| && sites[j] == f;
        MovedLast(sites, entries, four, key, i);
        MovedLast(sites, entries, four, key, j);
      }
    }
  }

  // ---- What one change does, entry by entry ----

  /**
   * Registering puts one new entry at the end of its tenant's list and under its address. The entry the site had before
   * is gone, every other entry of any tenant is as it was.
   */
  lemma RegisterMeaning<E, N>(t: Tables<E, N>, e: E, s: Site<N>)
    requires TablesValid(t) && e !in t.entries
    ensures var t' := Register(t, e, s);
      && (forall x :: x in t'.entries <==>
            x == e || (x in t.entries && !(t.entries[x].tenant == s.tenant && t.entries[x].site == s.site)))
      && t'.entries[e] == s && (forall x :: x in t'.entries && x != e ==> t'.entries[x] == t.entries[x])
      && s.addr in t'.bySrc && t'.bySrc[s.addr] == e
      && SitesOf(t', s.tenant) != [] && SitesOf(t', s.tenant)[|SitesOf(t', s.tenant)| - 1] == e
      && (forall tenant :: tenant != s.tenant ==> SitesOf(t', tenant) == SitesOf(t, tenant))
  {
    RemoveMeaning(t, s.tenant, s.site);
    hide Remove, TablesValid;
  }

  /** Removing takes exactly the entry of this tenant and site, and whatever its address led to. */
  lemma RemoveMeaning<E, N>(t: Tables<E, N>, tenant: N, site: N)
    requires TablesValid(t)
    ensures var t' := Remove(t, tenant, site);
      && (forall x ::
            x in t'.entries <==> x in t.entries && !(t.entries[x].tenant == tenant && t.entries[x].site == site))
      && (forall x :: x in t'.entries ==> t'.entries[x] == t.entries[x])
      && (forall other :: other != tenant ==> SitesOf(t', other) == SitesOf(t, other))
      && (forall a :: a in t'.bySrc <==>
            a in t.bySrc && !exists x :: x in t.entries && t.entries[x].tenant == tenant && t.entries[x].site == site
                                         && t.entries[x].addr == a)
      && (forall a :: a in t'.bySrc ==> t'.bySrc[a] == t.bySrc[a])
  {
    hide SrcValid, Find;
    var sites := SitesOf(t, tenant);
    var i := Find(sites, t.entries, site);
    forall x | x in t.entries && t.entries[x].tenant == tenant && t.entries[x].site == site
      ensures i < |sites| && x == sites[i]
    {
      OneEntryPerSite(t, x);
    }
    if i < |sites| {
      assert sites[i] in t.entries;
    }
  }

  /** The rest of the tenant's list keeps its order. */
  lemma RemoveKeepsOrder<E, N>(t: Tables<E, N>, tenant: N, site: N, i: nat)
    requires TablesValid(t) && i < |SitesOf(t, tenant)| && t.entries[SitesOf(t, tenant)[i]].site == site
    ensures SitesOf(Remove(t, tenant, site), tenant) == SitesOf(t, tenant)[..i] + SitesOf(t, tenant)[i + 1..]
  {
    hide SrcValid, Find;
    OneEntryPerSite(t, SitesOf(t, tenant)[i]);
    FindInList(t.entries, tenant, SitesOf(t, tenant), i);
  }

  /** An update gives the site of this tenant and name the new subnets and changes nothing else. */
  lemma UpdateMeaning<E, N>(t: Tables<E, N>, tenant: N, site: N, cidrs: seq<Cidr>)
    requires TablesValid(t)
    ensures var t' := UpdateCidrs(t, tenant, site, cidrs);
      && t'.entries.Keys == t.entries.Keys && t'.bySrc == t.bySrc && t'.byTenant == t.byTenant
      && forall x <- t.entries :: t'.entries[x] ==
           if t.entries[x].tenant == tenant && t.entries[x].site == site then t.entries[x].(cidrs := cidrs)
           else t.entries[x]
  {
    hide SrcValid, Find;
    var sites := SitesOf(t, tenant);
    var i := Find(sites, t.entries, site);
    forall x | x in t.entries && t.entries[x].tenant == tenant && t.entries[x].site == site
      ensures i < |sites| && x == sites[i]
    {
      OneEntryPerSite(t, x);
    }
    if i < |sites| {
      assert sites[i] in t.entries;
    }
  }

  /** In any run: after an update the site has the new subnets, if it is there, and all else is as it was. */
  lemma UpdateTakesEffect<N>(ops: seq<Op<N>>, tenant: N, site: N, cidrs: seq<Cidr>)
    ensures var t, t' := Run(ops), Run(ops + [UpdateOp(tenant, site, cidrs)]);
      && t'.entries.Keys == t.entries.Keys && t'.bySrc == t.bySrc && t'.byTenant == t.byTenant
      && forall x <- t.entries :: t'.entries[x] ==
           if t.entries[x].tenant == tenant && t.entries[x].site == site then t.entries[x].(cidrs := cidrs)
           else t.entries[x]
  {
    var later := ops + [UpdateOp(tenant, site, cidrs)];
    assert later[..|later| - 1] == ops;
    UpdateMeaning(Run(ops), tenant, site, cidrs);
    hide UpdateCidrs;
  }
}
