/** Whole runs of one multiplexed connection: byte streams are FIFO, and frames reach their own stream. */
module MuxRuns {
  import opened Bytes
  import opened MuxFrames
  import opened MuxStreams
  import opened MuxChannels
  import opened MuxSteps
  import opened MuxSystem

  /**
   * Byte streams are FIFO, for every interleaving of all streams on both ends. As long as the receiving stream is
   * neither shut nor reaped, what was read, what waits to be read, what is on the wire and what Write still holds are
   * together exactly what Write accepted. Once reaped, it has had everything sent before CLOSE, and everything sent
   * when no Write went on past CLOSE.
   */
  lemma StreamsAreFifo(es: seq<Event>, to: Side, id: u32)
    requires HasReady(Run(START, es), Other(to), id) && HasReady(Run(START, es), to, id)
    requires !MuxStreams.Shut(EndOf(Run(START, es), to).streams[id].s)
    ensures var w := Run(START, es);
      var snd, rcv, e := EndOf(w, Other(to)).streams[id], EndOf(w, to).streams[id], EndOf(w, to);
      && (id in e.table ==> rcv.got + Unread(rcv.s) + Data(Filter(Wire(w, to), id)) + snd.pending == snd.accepted)
      && rcv.got + Unread(rcv.s) <= snd.accepted
      && (id !in e.table && !e.closed ==>
            && snd.closing.CloseSent? && snd.closing.before <= rcv.got + Unread(rcv.s)
            && (Sent(snd) == snd.closing.before ==> rcv.got + Unread(rcv.s) + snd.pending == snd.accepted))
  {
    hide Inv, Filter, Run, Data, Unread, ChannelOf, ChannelInv, Sent, Records, RecInv;
    var w := Run(START, es);
    ReachableChannel(es, to, id);
    SenderView(w, to, id);
    ReceiverView(w, to, id);
    var snd := EndOf(w, Other(to)).streams[id];
    AcceptedIsSent(snd);
    AllKept(EndOf(w, to).streams[id]);
    FifoOf(ChannelOf(w, to, id), snd.pending, snd.accepted);
  }

  lemma AcceptedIsSent(r: Rec)
    requires RecInv(r)
    ensures Sent(r) + r.pending == r.accepted
  {
  }

  /** Until it is shut a stream keeps every byte that arrives. */
  lemma AllKept(r: Rec)
    requires RecInv(r) && !MuxStreams.Shut(r.s)
    ensures r.got + Unread(r.s) == r.arrived
  {
    hide Unread;
  }

  /** What the channel knows of its sender. */
  lemma SenderView(w: World, to: Side, id: u32)
    ensures var c := ChannelOf(w, to, id);
      && c.frames == Filter(Wire(w, to), id) && c.ready == HasReady(w, Other(to), id) && c.opens == (to == Connector)
      && (c.ready ==>
            && c.sent == Sent(EndOf(w, Other(to)).streams[id])
            && c.before == Before(EndOf(w, Other(to)).streams[id]))
  {
    hide Filter, Sent, Before;
  }

  /** What the channel knows of its receiver. */
  lemma ReceiverView(w: World, to: Side, id: u32)
    ensures var c, e := ChannelOf(w, to, id), EndOf(w, to);
      && c.made == Has(w, to, id) && c.listed == (id in e.table) && c.closed == e.closed
      && (c.made ==>
            && c.arrived == e.streams[id].arrived && c.ended == Ended(e.streams[id])
            && c.shut == MuxStreams.Shut(e.streams[id].s) && c.failed == (e.streams[id].phase == Phase.Failed))
  {
    hide Filter, Sent, Before;
  }

  lemma FifoOf(c: Channel, pending: seq<byte>, accepted: seq<byte>)
    requires ChannelInv(c) && c.made && !c.shut && !c.failed && c.sent + pending == accepted
    ensures c.listed ==> c.arrived + Data(c.frames) + pending == accepted
    ensures c.arrived <= accepted
    ensures !c.listed && !c.closed ==> c.before.Some? && c.before.value <= c.arrived
    ensures !c.listed && !c.closed && c.sent == c.before.value ==> c.arrived + pending == accepted
  {
    hide Data, ClosesAfter, NoOpen;
  }

  /** Bytes written before the connector has seen OPEN wait behind it. */
  lemma NothingOvertakesOpen(es: seq<Event>, id: u32)
    requires HasReady(Run(START, es), Server, id) && !Has(Run(START, es), Connector, id)
    requires !Run(START, es).con.closed
    ensures var w := Run(START, es);
      var frames := Filter(w.toCon, id);
      frames != [] && frames[0].typ == OPEN && Data(frames) + w.srv.streams[id].pending == w.srv.streams[id].accepted
  {
    hide Inv, Filter, Run, Data, ChannelOf, ChannelInv, Sent, Before, Records, RecInv;
    var w := Run(START, es);
    ReachableChannel(es, Connector, id);
    SenderView(w, Connector, id);
    ReceiverView(w, Connector, id);
    AcceptedIsSent(w.srv.streams[id]);
    Unopened(ChannelOf(w, Connector, id));
  }

  lemma Unopened(c: Channel)
    requires ChannelInv(c) && !c.made && c.opens && !c.closed && c.ready
    ensures c.frames != [] && c.frames[0].typ == OPEN && Data(c.frames) == c.sent
  {
  }

  lemma EndArrived(c: Channel)
    requires ChannelInv(c) && c.made && c.ended.Some?
    ensures c.ready && c.before == c.ended && c.ended.value <= c.arrived <= c.sent
  {
    hide Data, ClosesAfter, NoOpen;
  }

  /** The reader of this stream has taken a sentinel and is about to report the end. */
  predicate AboutToEnd(r: Rec) {
    r.reader.Checking? && ReadEnd(r.s, r.reader.n).2 == Eof
  }

  /** With nothing left to read, `got` is all there is of what arrived; the mark of CLOSE says what that lacks. */
  lemma GotAtEnd(r: Rec)
    requires RecInv(r) && AboutToEnd(r)
    ensures r.atClose.Some?
    ensures var m := r.atClose.value;
      && m.had <= r.got && (m.had == m.arrived <==> !m.dropped) && (m.dropped ==> MuxStreams.Shut(r.s))
      && (m.arrived == r.arrived ==> (r.got == r.arrived <==> !m.dropped))
  {
    ReadEndUnread(r.s, r.reader.n);
    hide Unread;
    assert r.got + [] == r.got;
    var m := r.atClose.value;
    if !m.dropped && m.arrived == r.arrived {
      assert r.got == m.had + r.got[|m.had|..];
    }
  }

  /**
   * When Read reports the end, everything the stream had kept by the peer's CLOSE has been read, and that is everything
   * sent before CLOSE if and only if deliver had dropped no chunk by then. When no Write went on past CLOSE, the same
   * condition decides whether everything was read at all.
   */
  lemma EndExactly(es: seq<Event>, to: Side, id: u32)
    requires HasReady(Run(START, es), to, id) && AboutToEnd(EndOf(Run(START, es), to).streams[id])
    ensures HasReady(Run(START, es), Other(to), id)
    ensures var snd, rcv := EndOf(Run(START, es), Other(to)).streams[id], EndOf(Run(START, es), to).streams[id];
      && snd.closing.CloseSent? && rcv.atClose.Some?
      && var m := rcv.atClose.value;
        && m.had <= rcv.got && (m.had == snd.closing.before <==> !m.dropped)
        && (snd.accepted == snd.closing.before ==> (rcv.got == snd.accepted <==> !m.dropped))
  {
    hide Inv, Filter, Run, Unread, ReadEnd, AboutToEnd, ChannelOf, ChannelInv, Sent, Records, RecInv;
    var w := Run(START, es);
    ReachableChannel(es, to, id);
    SenderView(w, to, id);
    ReceiverView(w, to, id);
    var rcv := EndOf(w, to).streams[id];
    GotAtEnd(rcv);
    EndArrived(ChannelOf(w, to, id));
    AcceptedIsSent(EndOf(w, Other(to)).streams[id]);
  }

  /** A stream that is not shut reports the end only after every byte written before the peer's CLOSE was read. */
  lemma EndOnlyAfterEverything(es: seq<Event>, to: Side, id: u32)
    requires HasReady(Run(START, es), to, id) && AboutToEnd(EndOf(Run(START, es), to).streams[id])
    requires !MuxStreams.Shut(EndOf(Run(START, es), to).streams[id].s)
    ensures HasReady(Run(START, es), Other(to), id)
    ensures var snd, rcv := EndOf(Run(START, es), Other(to)).streams[id], EndOf(Run(START, es), to).streams[id];
      && snd.closing.CloseSent? && snd.closing.before <= rcv.got <= snd.accepted
      && (snd.accepted == snd.closing.before ==> rcv.got == snd.accepted)
  {
    hide Inv, Filter, Run, Unread, ReadEnd, AboutToEnd, ChannelOf, ChannelInv, Sent, Records, RecInv;
    var w := Run(START, es);
    var rcv := EndOf(w, to).streams[id];
    ReachableChannel(es, to, id);
    EndExactly(es, to, id);
    GotAtEnd(rcv);
    StreamsAreFifo(es, to, id);
    NothingLeft(rcv);
  }

  /** Where and how much: the bytes a section of Read returns to a buffer of n bytes. */
  ghost predicate Returns(r: Rec, r': Rec, bytes: seq<byte>, n: nat) {
    && r'.got == r.got + bytes[..if n < |bytes| then n else |bytes|]
    && (n > 0 ==> |r'.got| > |r.got|)
  }

  /** In every run Read returns bytes: from what was left over, or from the chunk at the head of the queue. */
  lemma ReadReturnsBytes(es: seq<Event>, side: Side, id: u32, n: nat, done: bool)
    requires HasReady(Run(START, es), side, id)
    ensures var w := Run(START, es);
      var r := EndOf(w, side).streams[id];
      && (r.reader == Idle && r.s.readBuf != [] ==>
            Returns(r, EndOf(Step(w, BeginRead(side, id, n)), side).streams[id], r.s.readBuf, n))
      && (r.reader == Waiting(n) && (r.s.resetErr == None || !done) && r.s.queue != [] && r.s.queue[0].Some? ==>
            Returns(r, EndOf(Step(w, SelectRead(side, id, done)), side).streams[id], r.s.queue[0].value, n))
  {
    hide Inv, Filter, Run, Unread, ChannelOf, ChannelInv, Sent, Records, Have;
    ReachableChannel(es, side, id);
    hide RecInv;
    Nonempty(EndOf(Run(START, es), side).streams[id]);
  }

  lemma Nonempty(r: Rec)
    requires RecInv(r)
    ensures NoEmpty(r.s.queue)
  {
    hide Have;
  }

  lemma NothingLeft(r: Rec)
    requires RecInv(r) && AboutToEnd(r)
    ensures r.got + Unread(r.s) == r.got
  {
    ReadEndUnread(r.s, r.reader.n);
  }

  /** No DATA is lost after its OPEN: when it arrives at an open mux its stream is listed, shut, or had all of CLOSE. */
  lemma NoDataLost(es: seq<Event>, to: Side)
    requires Wire(Run(START, es), to) != [] && Wire(Run(START, es), to)[0].typ == DATA
    requires !EndOf(Run(START, es), to).closed
    ensures var w := Run(START, es);
      var f, e := Wire(w, to)[0], EndOf(w, to);
      && HasReady(w, Other(to), f.id) && f.id in e.streams
      && var snd, rcv := EndOf(w, Other(to)).streams[f.id], e.streams[f.id];
        || f.id in e.table || MuxStreams.Shut(rcv.s)
        || (rcv.s.remoteEOF && snd.closing.CloseSent? && snd.closing.before <= rcv.got + Unread(rcv.s))
  {
    hide Inv, Run, Unread, Filter, ChannelOf, ChannelInv, Sent, Records, RecInv;
    var w := Run(START, es);
    var id := Wire(w, to)[0].id;
    ReachableChannel(es, to, id);
    ReachableChannel(es, Connector, id);
    HeadChannel(w, to);
    SenderView(w, to, id);
    ReceiverView(w, to, id);
    SenderView(w, Connector, id);
    ReceiverView(w, Connector, id);
    DataArrives(ChannelOf(w, to, id), ChannelOf(w, Connector, id));
    if !MuxStreams.Shut(EndOf(w, to).streams[id].s) {
      AllKept(EndOf(w, to).streams[id]);
      ClosedByPeer(EndOf(w, to).streams[id]);
    }
  }

  lemma ClosedByPeer(r: Rec)
    requires RecInv(r)
    ensures r.s.remoteEOF <==> Ended(r).Some?
  {
    hide Have;
  }

  /** DATA at the head of a channel, given the channel that carries the stream's OPEN. */
  lemma DataArrives(c: Channel, open: Channel)
    requires ChannelInv(c) && ChannelInv(open) && c.frames != [] && c.frames[0].typ == DATA && !c.closed
    requires open.opens && (c.opens ==> c == open) && (!c.opens ==> c.ready ==> open.made)
    ensures c.ready && (c.opens ==> c.made) && (!c.opens ==> open.ready)
    ensures c.made ==> c.listed || c.shut || (c.before.Some? && c.before == c.ended && c.before.value <= c.arrived)
  {
    hide Data, ClosesAfter;
  }

  lemma ReachableChannel(es: seq<Event>, to: Side, id: u32)
    ensures var w := Run(START, es); Inv(w) && ChannelInv(ChannelOf(w, to, id)) && Records(w)
    ensures forall side :: Has(Run(START, es), side, id) ==> RecInv(EndOf(Run(START, es), side).streams[id])
  {
    hide Inv, Run, ChannelOf, ChannelInv, RecInv;
    StartInv();
    RunKeeps(START, es);
    InvAt(Run(START, es), to, id);
  }

  /** A frame reaches the stream of its own id and nothing else. */
  lemma ReceiveTouchesOwnStream(w: World, side: Side, drop: bool, id: u32)
    requires Wire(w, side) != [] && Wire(w, side)[0].id != id
    ensures var w' := StepReceive(w, side, drop);
      && EndOf(w', Other(side)) == EndOf(w, Other(side)) && Wire(w', Other(side)) == Wire(w, Other(side))
      && (id in EndOf(w', side).streams <==> id in EndOf(w, side).streams)
      && (id in EndOf(w, side).streams ==> EndOf(w', side).streams[id] == EndOf(w, side).streams[id])
      && (id in EndOf(w', side).table <==> id in EndOf(w, side).table)
  {
    hide Delivered, PeerClosed, CanDeliver, Shutdown;
  }

  predicate AllFit(fs: seq<MuxFrame>) {
    forall i :: 0 <= i < |fs| ==> Fits(fs[i])
  }

  lemma SendFits(w: World, from: Side, f: MuxFrame)
    requires AllFit(w.toSrv) && AllFit(w.toCon) && Fits(f)
    ensures AllFit(Send(w, from, f).toSrv) && AllFit(Send(w, from, f).toCon)
  {
  }

  lemma AnyFits(typ: u8, id: u32, payload: seq<byte>)
    requires |payload| <= MAX_PAYLOAD
    ensures Fits(MuxFrame(typ, id, payload))
  {
  }

  lemma ReceiveFits(w: World, side: Side, drop: bool)
    requires AllFit(w.toSrv) && AllFit(w.toCon)
    ensures AllFit(StepReceive(w, side, drop).toSrv) && AllFit(StepReceive(w, side, drop).toCon)
  {
    hide Delivered, PeerClosed, CanDeliver, Shutdown, Fits;
  }

  /** All other steps leave both wires alone. */
  lemma QuietStep(w: World, ev: Event)
    requires !ev.OpenSend? && !ev.WriteChunk? && !ev.CloseSend? && !ev.SendReset? && !ev.Receive?
    ensures Step(w, ev).toSrv == w.toSrv && Step(w, ev).toCon == w.toCon
  {
    hide Shutdown, ReadStart, ReadRound, ReadEnd, AfterRead, Sent, Done, MuxStreams.Shut;
  }

  lemma StepFits(w: World, ev: Event)
    requires AllFit(w.toSrv) && AllFit(w.toCon)
    ensures AllFit(Step(w, ev).toSrv) && AllFit(Step(w, ev).toCon)
  {
    hide Shutdown, Sent, Send, Fits, StepReceive, StepOpenBegin, StepBeginWrite, StepCloseBegin, StepShut, StepRemove;
    hide StepBeginRead, StepSelectRead, StepCheckEnd, StepMuxClose;
    match ev
    case Receive(side, drop) => ReceiveFits(w, side, drop);
    case OpenSend(id, dst) =>
      if Has(w, Server, id) && |dst| <= MAX_PAYLOAD {
        AnyFits(OPEN, id, dst);
        SendFits(WithRec(w, Server, id, w.srv.streams[id].(phase := Ready)), Server, MuxFrame(OPEN, id, dst));
      }
    case WriteChunk(side, id) =>
      if HasReady(w, side, id) {
        var r := EndOf(w, side).streams[id];
        var chunk := Chunk(r.pending);
        AnyFits(DATA, id, chunk);
        SendFits(WithRec(w, side, id, r.(pending := r.pending[|chunk|..])), side, MuxFrame(DATA, id, chunk));
      }
    case CloseSend(side, id) =>
      if HasReady(w, side, id) {
        var r := EndOf(w, side).streams[id];
        AnyFits(CLOSE, id, []);
        SendFits(WithRec(w, side, id, r.(closing := CloseSent(Sent(r)))), side, MuxFrame(CLOSE, id, []));
      }
    case SendReset(side, id) =>
      AnyFits(RST, id, []);
      SendFits(w, side, MuxFrame(RST, id, []));
    case _ => QuietStep(w, ev);
  }

  /** Every frame any run writes fits, so the peer's read loop decodes the wire to exactly these frames. */
  lemma {:induction false} WireDecodes(w: World, es: seq<Event>)
    requires AllFit(w.toSrv) && AllFit(w.toCon)
    ensures AllFit(Run(w, es).toSrv) && AllFit(Run(w, es).toCon)
    ensures Decode(EncodeAll(Run(w, es).toSrv)) == Run(w, es).toSrv
    ensures Decode(EncodeAll(Run(w, es).toCon)) == Run(w, es).toCon
    decreases |es|
  {
    hide Step, Decode, EncodeAll, Fits;
    if es == [] {
      DecodeEncodeAll(w.toSrv);
      DecodeEncodeAll(w.toCon);
    } else {
      StepFits(w, es[0]);
      WireDecodes(Step(w, es[0]), es[1..]);
    }
  }
}
