/**
 * Handle of internal/dptunnel/router.go under interleaving. Handle takes the router's lock to find the source entry
 * and again for each packet to find the destination, the source session's lock to open the datagram and the
 * destination session's to seal each packet: every one of these is a step of its own. In between, and while other
 * Handle calls run, sites register, deregister and change their subnets.
 */
module RouterHandle {
  import opened Bytes
  import opened Packet
  import opened RouterTables
  import opened Session
  import Frame

  type Firewall<!N> = (N, Tuple5) -> bool

  datatype Outbound<N> = Outbound(addr: N, data: seq<byte>)

  /** A packet on its way to the destination entry it was routed to. */
  datatype Target<N> = Target(to: nat, toSite: Site<N>, pkt: seq<byte>)

  /** A forwarded packet, with the source and destination entries as they were when they were looked up. */
  datatype Forward<N> = Forward(from: nat, fromSite: Site<N>, target: Target<N>, frames: seq<seq<byte>>)

  /** A running Handle call: what it holds on to between its lock sections. */
  datatype Call<N> =
    | Waiting(datagram: seq<byte>, src: N)
    | Found(from: nat, fromSite: Site<N>, datagram: seq<byte>)
    | Forwarding(from: nat, fromSite: Site<N>, inners: seq<seq<byte>>, next: nat, pending: Option<Target<N>>,
                 done: seq<Forward<N>>)
    | Dropped

  datatype Sess = Sess(snd: Sender, rcv: Receiver, table: Emitted, cipher: Cipher)

  /** The tables, each entry's session (kept after removal: calls may still hold the entry), and the running calls. */
  datatype World<!N> = World(tables: Tables<nat, N>, made: nat, sessions: map<nat, Sess>, fw: Option<Firewall<N>>,
                             calls: map<nat, Call<N>>)

  datatype Event<N> =
    | Change(op: Op<N>, session: Sess)
    | Arrive(call: nat, datagram: seq<byte>, src: N)
    | LookUp(call: nat)
    | OpenIt(call: nat)
    | RouteNext(call: nat)
    | SealNext(call: nat)
    | PeerEmits(entry: nat, key: Lookup, plain: seq<byte>)

  function Plain(out: Frame.Result<seq<Delivery>>): seq<seq<byte>> {
    if out.Ok? then Plains(out.value) else []
  }

  /** parse, firewall, route in the source's tenant: None when the packet is dropped. */
  ghost function RoutePacket<N>(w: World<N>, from: nat, fromSite: Site<N>, pkt: seq<byte>): Option<Target<N>>
    requires TablesValid(w.tables)
  {
    var tuple := ParseTuple(pkt);
    if tuple.None? then None
    else if w.fw.Some? && !w.fw.value(fromSite.tenant, tuple.value) then None
    else
      var to := Route(w.tables, fromSite.tenant, tuple.value.dst);
      if to.None? || to.value == from then None else
      RoutedIsListed(w.tables, fromSite.tenant, tuple.value.dst);
      Some(Target(to.value, w.tables.entries[to.value], pkt))
  }

  ghost function StepCall<N>(w: World<N>, id: nat, c: Call<N>): World<N> {
    w.(calls := w.calls[id := c])
  }

  ghost function Step<N>(w: World<N>, e: Event<N>): (w': World<N>)
    requires TablesValid(w.tables)
    ensures w.calls.Keys <= w'.calls.Keys
  {
    match e
    case Change(op, session) =>
      w.(tables := Apply(w.tables, op, w.made), made := w.made + 1, sessions := w.sessions[w.made := session])
    case PeerEmits(entry, key, plain) =>
      if entry !in w.sessions then w else
      var s := w.sessions[entry];
      w.(sessions := w.sessions[entry := s.(table := s.table[key := plain])])
    case Arrive(id, datagram, src) =>
      if id in w.calls then w else StepCall(w, id, Waiting(datagram, src))
    case LookUp(id) =>
      if id !in w.calls || !w.calls[id].Waiting? then w else
      var src := w.calls[id].src;
      if src !in w.tables.bySrc then StepCall(w, id, Dropped) else
      var from := w.tables.bySrc[src];
      StepCall(w, id, Found(from, w.tables.entries[from], w.calls[id].datagram))
    case OpenIt(id) =>
      if id !in w.calls || !w.calls[id].Found? || w.calls[id].from !in w.sessions then w else
      var c := w.calls[id];
      var s := w.sessions[c.from];
      var (rcv, out) := OpenStep(s.rcv, s.table, c.datagram);
      var w' := w.(sessions := w.sessions[c.from := s.(rcv := rcv)]);
      StepCall(w', id, Forwarding(c.from, c.fromSite, Plain(out), 0, None, []))
    case RouteNext(id) =>
      if id !in w.calls || !w.calls[id].Forwarding? || w.calls[id].pending.Some? then w else
      var c := w.calls[id];
      if c.next >= |c.inners| then w
      else StepCall(w, id, c.(next := c.next + 1, pending := RoutePacket(w, c.from, c.fromSite, c.inners[c.next])))
    case SealNext(id) =>
      if id !in w.calls || !w.calls[id].Forwarding? || w.calls[id].pending.None? then w else
      var c := w.calls[id];
      var t := c.pending.value;
      if t.to !in w.sessions then w else
      var s := w.sessions[t.to];
      var o := SealStep(s.cipher, s.snd, t.pkt);
      if !o.Sealed? then StepCall(w, id, c.(pending := None)) else
      var w' := w.(sessions := w.sessions[t.to := s.(snd := o.next)]);
      StepCall(w', id, c.(pending := None, done := c.done + [Forward(c.from, c.fromSite, t, o.frames)]))
  }

  // ---- Runs ----

  ghost predicate Inv<N>(w: World<N>) {
    && TablesValid(w.tables) && AllBefore(w.tables, w.made)
    && (forall e: nat :: e in w.sessions <==> e < w.made)
  }

  lemma StepKeepsInv<N>(w: World<N>, e: Event<N>)
    requires Inv(w)
    ensures Inv(Step(w, e)) && Step(w, e).fw == w.fw
  {
    hide ListsValid, SrcValid, OpenStep, SealStep, ParseTuple, Apply;
    if e.Change? {
      ApplyKeeps(w.tables, e.op, w.made);
    }
  }

  ghost function Run<N>(fw: Option<Firewall<N>>, events: seq<Event<N>>): (w: World<N>)
    ensures Inv(w) && w.fw == fw
  {
    if events == [] then World(EmptyTables(), 0, map[], fw, map[]) else
    var w := Run(fw, events[..|events| - 1]);
    StepKeepsInv(w, events[|events| - 1]);
    Step(w, events[|events| - 1])
  }

  // ---- Where a call's data come from ----

  /** At step n the call found its source entry: the live one the datagram's address leads to. */
  ghost predicate FoundAt<N>(w: World<N>, e: Event<N>, id: nat, from: nat, fromSite: Site<N>, datagram: seq<byte>) {
    && e == LookUp(id) && id in w.calls && w.calls[id].Waiting? && w.calls[id].datagram == datagram
    && w.calls[id].src in w.tables.bySrc && w.tables.bySrc[w.calls[id].src] == from
    && from in w.tables.entries && w.tables.entries[from] == fromSite && fromSite.addr == w.calls[id].src
  }

  /** At step n the source's own session opened the datagram and gave these packets. */
  ghost predicate OpenedAt<N>(w: World<N>, e: Event<N>, id: nat, from: nat, datagram: seq<byte>,
                              inners: seq<seq<byte>>)
  {
    && e == OpenIt(id) && from in w.sessions
    && inners == Plain(OpenStep(w.sessions[from].rcv, w.sessions[from].table, datagram).1)
  }

  /** At step n the packet was let through and routed in the source's tenant to another, live entry. */
  ghost predicate RoutedAt<N>(w: World<N>, e: Event<N>, id: nat, from: nat, fromSite: Site<N>, t: Target<N>)
    requires SitesKnown(w.tables)
  {
    && e == RouteNext(id)
    && ParseTuple(t.pkt).Some?
    && (w.fw.Some? ==> w.fw.value(fromSite.tenant, ParseTuple(t.pkt).value))
    && Route(w.tables, fromSite.tenant, ParseTuple(t.pkt).value.dst) == Some(t.to)
    && t.to != from && t.to in w.tables.entries && w.tables.entries[t.to] == t.toSite
    && t.toSite.tenant == fromSite.tenant
  }

  /** At step n the packet was sealed by the session of the entry it had been routed to. */
  ghost predicate SealedAt<N>(w: World<N>, e: Event<N>, id: nat, t: Target<N>, frames: seq<seq<byte>>) {
    && e == SealNext(id) && t.to in w.sessions
    && SealStep(w.sessions[t.to].cipher, w.sessions[t.to].snd, t.pkt).Sealed?
    && frames == SealStep(w.sessions[t.to].cipher, w.sessions[t.to].snd, t.pkt).frames
  }

  ghost predicate HasFound<N>(fw: Option<Firewall<N>>, events: seq<Event<N>>, id: nat, from: nat, fromSite: Site<N>,
                              datagram: seq<byte>)
  {
    exists n :: 0 <= n < |events| && FoundAt(Run(fw, events[..n]), events[n], id, from, fromSite, datagram)
  }

  ghost predicate HasOpened<N>(fw: Option<Firewall<N>>, events: seq<Event<N>>, id: nat, from: nat,
                               datagram: seq<byte>, inners: seq<seq<byte>>)
  {
    exists n :: 0 <= n < |events| && OpenedAt(Run(fw, events[..n]), events[n], id, from, datagram, inners)
  }

  ghost predicate HasRouted<N>(fw: Option<Firewall<N>>, events: seq<Event<N>>, id: nat, from: nat,
                               fromSite: Site<N>, t: Target<N>)
  {
    exists n :: 0 <= n < |events| && RoutedAt(Run(fw, events[..n]), events[n], id, from, fromSite, t)
  }

  /** Routed first and sealed later. */
  ghost predicate HasForwarded<N>(fw: Option<Firewall<N>>, events: seq<Event<N>>, id: nat, f: Forward<N>) {
    exists n ::
      && 0 <= n < |events| && SealedAt(Run(fw, events[..n]), events[n], id, f.target, f.frames)
      && HasRouted(fw, events[..n], id, f.from, f.fromSite, f.target)
  }

  ghost predicate Sourced<N>(fw: Option<Firewall<N>>, events: seq<Event<N>>, id: nat, from: nat, fromSite: Site<N>,
                             inners: seq<seq<byte>>)
  {
    exists datagram ::
      HasFound(fw, events, id, from, fromSite, datagram) && HasOpened(fw, events, id, from, datagram, inners)
  }

  /** A call's state is accounted for by earlier steps of the run. */
  ghost predicate Accounted<N>(fw: Option<Firewall<N>>, events: seq<Event<N>>, id: nat, c: Call<N>) {
    match c
    case Waiting(_, _) => true
    case Dropped => true
    case Found(from, fromSite, datagram) => HasFound(fw, events, id, from, fromSite, datagram)
    case Forwarding(from, fromSite, inners, next, pending, done) =>
      && Sourced(fw, events, id, from, fromSite, inners)
      && (pending.Some? ==> pending.value.pkt in inners && HasRouted(fw, events, id, from, fromSite, pending.value))
      && forall i :: 0 <= i < |done| ==>
           done[i].from == from && done[i].fromSite == fromSite && done[i].target.pkt in inners
           && HasForwarded(fw, events, id, done[i])
  }

  lemma LaterFound<N>(fw: Option<Firewall<N>>, events: seq<Event<N>>, e: Event<N>, id: nat, from: nat,
                      fromSite: Site<N>, datagram: seq<byte>)
    requires HasFound(fw, events, id, from, fromSite, datagram)
    ensures HasFound(fw, events + [e], id, from, fromSite, datagram)
  {
    hide Run, FoundAt;
    var n :| 0 <= n < |events| && FoundAt(Run(fw, events[..n]), events[n], id, from, fromSite, datagram);
    assert (events + [e])[..n] == events[..n] && (events + [e])[n] == events[n];
  }

  lemma LaterOpened<N>(fw: Option<Firewall<N>>, events: seq<Event<N>>, e: Event<N>, id: nat, from: nat,
                       datagram: seq<byte>, inners: seq<seq<byte>>)
    requires HasOpened(fw, events, id, from, datagram, inners)
    ensures HasOpened(fw, events + [e], id, from, datagram, inners)
  {
    hide Run, OpenedAt;
    var n :| 0 <= n < |events| && OpenedAt(Run(fw, events[..n]), events[n], id, from, datagram, inners);
    assert (events + [e])[..n] == events[..n] && (events + [e])[n] == events[n];
  }

  lemma LaterRouted<N>(fw: Option<Firewall<N>>, events: seq<Event<N>>, e: Event<N>, id: nat, from: nat,
                       fromSite: Site<N>, t: Target<N>)
    requires HasRouted(fw, events, id, from, fromSite, t)
    ensures HasRouted(fw, events + [e], id, from, fromSite, t)
  {
    hide Run, RoutedAt;
    var n :| 0 <= n < |events| && RoutedAt(Run(fw, events[..n]), events[n], id, from, fromSite, t);
    assert (events + [e])[..n] == events[..n] && (events + [e])[n] == events[n];
  }

  lemma LaterForwarded<N>(fw: Option<Firewall<N>>, events: seq<Event<N>>, e: Event<N>, id: nat, f: Forward<N>)
    requires HasForwarded(fw, events, id, f)
    ensures HasForwarded(fw, events + [e], id, f)
  {
    hide Run, SealedAt, HasRouted;
    var n :| 0 <= n < |events| && SealedAt(Run(fw, events[..n]), events[n], id, f.target, f.frames)
             && HasRouted(fw, events[..n], id, f.from, f.fromSite, f.target);
    assert (events + [e])[..n] == events[..n] && (events + [e])[n] == events[n];
  }

  lemma LaterSourced<N>(fw: Option<Firewall<N>>, events: seq<Event<N>>, e: Event<N>, id: nat, from: nat,
                        fromSite: Site<N>, inners: seq<seq<byte>>)
    requires Sourced(fw, events, id, from, fromSite, inners)
    ensures Sourced(fw, events + [e], id, from, fromSite, inners)
  {
    hide HasFound, HasOpened;
    var datagram :| HasFound(fw, events, id, from, fromSite, datagram)
                    && HasOpened(fw, events, id, from, datagram, inners);
    LaterFound(fw, events, e, id, from, fromSite, datagram);
    LaterOpened(fw, events, e, id, from, datagram, inners);
  }

  lemma LaterAccounted<N>(fw: Option<Firewall<N>>, events: seq<Event<N>>, e: Event<N>, id: nat, c: Call<N>)
    requires Accounted(fw, events, id, c)
    ensures Accounted(fw, events + [e], id, c)
  {
    hide Sourced, HasFound, HasRouted, HasForwarded;
    match c
    case Waiting(_, _) =>
    case Dropped =>
    case Found(from, fromSite, datagram) => LaterFound(fw, events, e, id, from, fromSite, datagram);
    case Forwarding(from, fromSite, inners, next, pending, done) =>
      LaterSourced(fw, events, e, id, from, fromSite, inners);
      if pending.Some? {
        LaterRouted(fw, events, e, id, from, fromSite, pending.value);
      }
      forall i | 0 <= i < |done|
        ensures HasForwarded(fw, events + [e], id, done[i])
      {
        LaterForwarded(fw, events, e, id, done[i]);
      }
  }

  // ---- The step that changes the call itself ----

  lemma NowFound<N>(fw: Option<Firewall<N>>, events: seq<Event<N>>, id: nat)
    requires var w := Run(fw, events); id in w.calls && w.calls[id].Waiting?
    ensures Accounted(fw, events + [LookUp(id)], id, Step(Run(fw, events), LookUp(id)).calls[id])
  {
    hide Run, HasOpened, HasForwarded;
    var w := Run(fw, events);
    var c := w.calls[id];
    var later := events + [LookUp(id)];
    assert later[..|events|] == events && later[|events|] == LookUp(id);
    if c.src in w.tables.bySrc {
      var from := w.tables.bySrc[c.src];
      assert FoundAt(Run(fw, later[..|events|]), later[|events|], id, from, w.tables.entries[from], c.datagram);
    }
  }

  lemma NowOpened<N>(fw: Option<Firewall<N>>, events: seq<Event<N>>, id: nat)
    requires var w := Run(fw, events); id in w.calls && w.calls[id].Found? && w.calls[id].from in w.sessions
    requires Accounted(fw, events, id, Run(fw, events).calls[id])
    ensures Accounted(fw, events + [OpenIt(id)], id, Step(Run(fw, events), OpenIt(id)).calls[id])
  {
    hide Run, HasFound, HasForwarded, OpenStep;
    var w := Run(fw, events);
    var c := w.calls[id];
    var later := events + [OpenIt(id)];
    assert later[..|events|] == events && later[|events|] == OpenIt(id);
    var inners := Plain(OpenStep(w.sessions[c.from].rcv, w.sessions[c.from].table, c.datagram).1);
    assert OpenedAt(Run(fw, later[..|events|]), later[|events|], id, c.from, c.datagram, inners);
    LaterFound(fw, events, OpenIt(id), id, c.from, c.fromSite, c.datagram);
    assert HasOpened(fw, later, id, c.from, c.datagram, inners);
  }

  lemma RouteStep<N>(w: World<N>, id: nat, c: Call<N>)
    requires Inv(w) && c.Forwarding? && c.next < |c.inners|
    ensures var t := RoutePacket(w, c.from, c.fromSite, c.inners[c.next]);
      t.Some? ==> t.value.pkt == c.inners[c.next] && RoutedAt(w, RouteNext(id), id, c.from, c.fromSite, t.value)
  {
    hide ListsValid, SrcValid, ParseTuple, Route;
    var tuple := ParseTuple(c.inners[c.next]);
    if tuple.Some? && Route(w.tables, c.fromSite.tenant, tuple.value.dst).Some? {
      RoutedIsListed(w.tables, c.fromSite.tenant, tuple.value.dst);
    }
  }

  lemma NowRouted<N>(fw: Option<Firewall<N>>, events: seq<Event<N>>, id: nat, c: Call<N>)
    requires c.Forwarding? && c.pending.None? && c.next < |c.inners| && Accounted(fw, events, id, c)
    ensures var t := RoutePacket(Run(fw, events), c.from, c.fromSite, c.inners[c.next]);
      Accounted(fw, events + [RouteNext(id)], id, c.(next := c.next + 1, pending := t))
  {
    hide Run, Sourced, HasFound, HasForwarded, RoutedAt, RoutePacket, ListsValid, SrcValid, SitesKnown;
    LaterAccounted(fw, events, RouteNext(id), id, c);
    RouteStep(Run(fw, events), id, c);
    var later := events + [RouteNext(id)];
    assert later[..|events|] == events && later[|events|] == RouteNext(id);
    var t := RoutePacket(Run(fw, events), c.from, c.fromSite, c.inners[c.next]);
    if t.Some? {
      assert RoutedAt(Run(fw, later[..|events|]), later[|events|], id, c.from, c.fromSite, t.value);
    }
  }

  lemma NowSealed<N>(fw: Option<Firewall<N>>, events: seq<Event<N>>, id: nat, c: Call<N>, frames: seq<seq<byte>>)
    requires c.Forwarding? && c.pending.Some? && Accounted(fw, events, id, c)
    requires SealedAt(Run(fw, events), SealNext(id), id, c.pending.value, frames)
    ensures var f := Forward(c.from, c.fromSite, c.pending.value, frames);
      Accounted(fw, events + [SealNext(id)], id, c.(pending := None, done := c.done + [f]))
  {
    hide Run, Sourced, HasFound, HasRouted, SealedAt;
    var f := Forward(c.from, c.fromSite, c.pending.value, frames);
    var later := events + [SealNext(id)];
    assert later[..|events|] == events && later[|events|] == SealNext(id);
    assert HasForwarded(fw, later, id, f);
    hide HasForwarded;
    LaterAccounted(fw, events, SealNext(id), id, c);
    assert forall i :: 0 <= i < |c.done| + 1 ==> (c.done + [f])[i] == if i < |c.done| then c.done[i] else f;
  }

  lemma NotSealed<N>(fw: Option<Firewall<N>>, events: seq<Event<N>>, id: nat, c: Call<N>)
    requires c.Forwarding? && Accounted(fw, events, id, c)
    ensures Accounted(fw, events + [SealNext(id)], id, c.(pending := None))
  {
    hide Sourced, HasRouted, HasForwarded;
    LaterAccounted(fw, events, SealNext(id), id, c);
  }

  lemma SealStepOf<N>(fw: Option<Firewall<N>>, events: seq<Event<N>>, id: nat)
    requires var w := Run(fw, events);
      id in w.calls && w.calls[id].Forwarding? && w.calls[id].pending.Some?
      && Accounted(fw, events, id, w.calls[id]) && w.calls[id].pending.value.to in w.sessions
    ensures Accounted(fw, events + [SealNext(id)], id, Step(Run(fw, events), SealNext(id)).calls[id])
  {
    hide Run, Accounted, SealStep;
    var w := Run(fw, events);
    var c := w.calls[id];
    var s := w.sessions[c.pending.value.to];
    var o := SealStep(s.cipher, s.snd, c.pending.value.pkt);
    if o.Sealed? {
      NowSealed(fw, events, id, c, o.frames);
    } else {
      NotSealed(fw, events, id, c);
    }
  }

  lemma OneStep<N>(fw: Option<Firewall<N>>, events: seq<Event<N>>, e: Event<N>, id: nat)
    requires id in Run(fw, events).calls ==> Accounted(fw, events, id, Run(fw, events).calls[id])
    ensures var w := Step(Run(fw, events), e);
            id in w.calls ==> Accounted(fw, events + [e], id, w.calls[id])
  {
    hide Run, Accounted, ListsValid, SrcValid, Apply, OpenStep, RoutePacket, SealStep;
    var w := Run(fw, events);
    var w' := Step(w, e);
    if id in w.calls && w'.calls[id] == w.calls[id] {
      LaterAccounted(fw, events, e, id, w.calls[id]);
    } else if e == LookUp(id) && id in w.calls {
      NowFound(fw, events, id);
    } else if e == OpenIt(id) && id in w.calls {
      NowOpened(fw, events, id);
    } else if e == RouteNext(id) && id in w.calls {
      NowRouted(fw, events, id, w.calls[id]);
    } else if e == SealNext(id) && id in w.calls {
      SealStepOf(fw, events, id);
    } else if e.Arrive? && e.call == id {
      NowWaiting(fw, events + [e], id, e.datagram, e.src);
    }
  }

  lemma NowWaiting<N>(fw: Option<Firewall<N>>, events: seq<Event<N>>, id: nat, datagram: seq<byte>, src: N)
    ensures Accounted(fw, events, id, Waiting(datagram, src))
  {
  }

  lemma {:induction false} AllAccounted<N>(fw: Option<Firewall<N>>, events: seq<Event<N>>, id: nat)
    ensures id in Run(fw, events).calls ==> Accounted(fw, events, id, Run(fw, events).calls[id])
  {
    hide Accounted, Step;
    if events != [] {
      var init, last := events[..|events| - 1], events[|events| - 1];
      AllAccounted(fw, init, id);
      OneStep(fw, init, last, id);
      assert init + [last] == events;
    }
  }

  /** The destination address of an inner packet: bytes 16 to 19 of an IPv4 header, 24 to 39 of an IPv6 header. */
  function Destination(pkt: seq<byte>): seq<byte>
    requires IsIPv4(pkt) || IsIPv6(pkt)
  {
    if IsIPv4(pkt) then pkt[16..20] else pkt[24..40]
  }

  /** A routing step of this call found the target by the destination in the packet's header. */
  ghost predicate RoutedByHeader<N>(fw: Option<Firewall<N>>, events: seq<Event<N>>, id: nat, tenant: N, t: Target<N>) {
    && (IsIPv4(t.pkt) || IsIPv6(t.pkt))
    && exists m: nat :: m < |events| && events[m] == RouteNext(id)
         && Route(Run(fw, events[..m]).tables, tenant, Destination(t.pkt)) == Some(t.to)
  }

  lemma ForwardFacts<N>(fw: Option<Firewall<N>>, events: seq<Event<N>>, id: nat, f: Forward<N>)
    requires HasForwarded(fw, events, id, f)
    ensures f.target.toSite.tenant == f.fromSite.tenant && f.target.to != f.from
    ensures RoutedByHeader(fw, events, id, f.fromSite.tenant, f.target)
  {
    hide Run, SealedAt, Route, ParseTuple, ListsValid, SrcValid, SitesKnown;
    var n :| 0 <= n < |events| && SealedAt(Run(fw, events[..n]), events[n], id, f.target, f.frames)
             && HasRouted(fw, events[..n], id, f.from, f.fromSite, f.target);
    var before := events[..n];
    var m :| 0 <= m < |before| && RoutedAt(Run(fw, before[..m]), before[m], id, f.from, f.fromSite, f.target);
    assert before[..m] == events[..m] && before[m] == events[m];
    AddressFields(f.target.pkt);
  }

  /**
   * Tenant isolation in every interleaving: whatever a Handle call forwards was opened by the session of the entry its
   * source address led to, was let through the firewall for that entry's tenant, was routed by the destination address
   * in its header to another entry of the same tenant that was live when it was looked up, and was sealed later by that
   * entry's session.
   */
  lemma TenantIsolation<N>(fw: Option<Firewall<N>>, events: seq<Event<N>>, id: nat, i: nat)
    requires id in Run(fw, events).calls && Run(fw, events).calls[id].Forwarding?
    requires i < |Run(fw, events).calls[id].done|
    ensures var c := Run(fw, events).calls[id];
            var f := c.done[i];
      && f.target.toSite.tenant == c.fromSite.tenant && f.target.to != c.from
      && f.target.pkt in c.inners && Sourced(fw, events, id, c.from, c.fromSite, c.inners)
      && HasForwarded(fw, events, id, f) && f.fromSite == c.fromSite && f.from == c.from
      && RoutedByHeader(fw, events, id, c.fromSite.tenant, f.target)
  {
    hide Run, Sourced, HasForwarded, RoutedByHeader;
    AllAccounted(fw, events, id);
    ForwardFacts(fw, events, id, Run(fw, events).calls[id].done[i]);
  }

  // ---- And nothing that should go through is dropped ----

  /** The source entry is the one the address leads to at that moment; without one the datagram is dropped. */
  lemma SourceIsFound<N>(w: World<N>, id: nat)
    requires Inv(w) && id in w.calls && w.calls[id].Waiting?
    ensures var c := w.calls[id];
      Step(w, LookUp(id)).calls[id]
      == if c.src in w.tables.bySrc
         then Found(w.tables.bySrc[c.src], w.tables.entries[w.tables.bySrc[c.src]], c.datagram) else Dropped
  {
    hide ListsValid, SrcValid;
  }

  /** What the source's session delivers for the datagram, each plaintext in turn, is what is forwarded. */
  lemma FoundIsOpened<N>(w: World<N>, id: nat)
    requires Inv(w) && id in w.calls && w.calls[id].Found? && w.calls[id].from in w.sessions
    ensures var c := w.calls[id];
      var s := w.sessions[c.from];
      var (rcv, out) := OpenStep(s.rcv, s.table, c.datagram);
      var w' := Step(w, OpenIt(id));
      && w'.sessions == w.sessions[c.from := s.(rcv := rcv)]
      && w'.calls[id].Forwarding? && w'.calls[id] == Forwarding(c.from, c.fromSite, w'.calls[id].inners, 0, None, [])
      && (out.Err? ==> w'.calls[id].inners == [])
      && (out.Ok? ==> |w'.calls[id].inners| == |out.value|
                      && forall i :: 0 <= i < |out.value| ==> w'.calls[id].inners[i] == out.value[i].plain)
  {
    hide ListsValid, SrcValid, OpenStep;
  }

  /**
   * The next packet of a call goes on to a target exactly when it is an IP packet that the firewall lets through and
   * whose destination leads, in the source's tenant, to an entry other than the source.
   */
  lemma NextIsRouted<N>(w: World<N>, id: nat)
    requires Inv(w) && id in w.calls && w.calls[id].Forwarding? && w.calls[id].pending.None?
    requires w.calls[id].next < |w.calls[id].inners|
    ensures var c := w.calls[id];
      var pkt := c.inners[c.next];
      var c' := Step(w, RouteNext(id)).calls[id];
      && c' == c.(next := c.next + 1, pending := c'.pending)
      && (c'.pending.Some? <==>
            && (IsIPv4(pkt) || IsIPv6(pkt))
            && (w.fw.Some? ==> w.fw.value(c.fromSite.tenant, ParseTuple(pkt).value))
            && var to := Route(w.tables, c.fromSite.tenant, Destination(pkt));
               to.Some? && to != Some(c.from))
      && (c'.pending.Some? ==>
            && c'.pending.value.pkt == pkt
            && Route(w.tables, c.fromSite.tenant, Destination(pkt)) == Some(c'.pending.value.to)
            && c'.pending.value.to in w.tables.entries
            && c'.pending.value.toSite == w.tables.entries[c'.pending.value.to])
  {
    hide ListsValid, SrcValid, Route, ParseTuple;
    var c := w.calls[id];
    AddressFields(c.inners[c.next]);
    RouteStep(w, id, c);
  }

  /** A routed packet goes out in the frames its target's session makes of it, when that seals it at all. */
  lemma NextIsSealed<N>(w: World<N>, id: nat)
    requires Inv(w) && id in w.calls && w.calls[id].Forwarding? && w.calls[id].pending.Some?
    requires w.calls[id].pending.value.to in w.sessions
    ensures var c := w.calls[id];
      var t := c.pending.value;
      var s := w.sessions[t.to];
      var o := SealStep(s.cipher, s.snd, t.pkt);
      var w' := Step(w, SealNext(id));
      && w'.calls[id] == c.(pending := None,
                            done := c.done + if o.Sealed? then [Forward(c.from, c.fromSite, t, o.frames)] else [])
      && w'.sessions == w.sessions[t.to := if o.Sealed? then s.(snd := o.next) else s]
  {
    hide ListsValid, SrcValid, SealStep;
    var c := w.calls[id];
    assert c.done + [] == c.done;
    assert w.sessions[c.pending.value.to := w.sessions[c.pending.value.to]] == w.sessions;
  }
}
