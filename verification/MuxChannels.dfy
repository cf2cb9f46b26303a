/** One direction of one stream of the multiplexer, and what each kind of step does to it. */
module MuxChannels {
  import opened Bytes
  import opened MuxFrames
  import opened MuxStreams
  import opened MuxSystem

  // ---- One stream, one direction ----

  function Filter(w: seq<MuxFrame>, id: u32): seq<MuxFrame> {
    if w == [] then [] else (if w[0].id == id then [w[0]] else []) + Filter(w[1..], id)
  }

  /** The bytes in flight. */
  function Data(fs: seq<MuxFrame>): seq<byte> {
    if fs == [] then [] else (if fs[0].typ == DATA then fs[0].payload else []) + Data(fs[1..])
  }

  /** When a CLOSE arrives, exactly what was sent before it has arrived. */
  ghost predicate ClosesAfter(fs: seq<MuxFrame>, arrived: seq<byte>, before: Option<seq<byte>>) {
    fs == [] ||
    (&& (fs[0].typ == CLOSE ==> before == Some(arrived))
     && ClosesAfter(fs[1..], if fs[0].typ == DATA then arrived + fs[0].payload else arrived, before))
  }

  predicate NoOpen(fs: seq<MuxFrame>) {
    forall i :: 0 <= i < |fs| ==> fs[i].typ != OPEN
  }

  lemma {:induction false} FilterAppend(w: seq<MuxFrame>, f: MuxFrame, id: u32)
    ensures Filter(w + [f], id) == Filter(w, id) + if f.id == id then [f] else []
  {
    if w == [] {
      assert w + [f] == [f];
    } else {
      assert (w + [f])[1..] == w[1..] + [f];
      FilterAppend(w[1..], f, id);
      var first, rest, last := if w[0].id == id then [w[0]] else [], Filter(w[1..], id), if f.id == id then [f] else [];
      assert first + (rest + last) == first + rest + last;
    }
  }

  lemma {:induction false} DataAppend(fs: seq<MuxFrame>, f: MuxFrame)
    ensures Data(fs + [f]) == Data(fs) + if f.typ == DATA then f.payload else []
  {
    if fs == [] {
      assert fs + [f] == [f];
    } else {
      assert (fs + [f])[1..] == fs[1..] + [f];
      DataAppend(fs[1..], f);
      var first := if fs[0].typ == DATA then fs[0].payload else [];
      var last := if f.typ == DATA then f.payload else [];
      assert first + (Data(fs[1..]) + last) == first + Data(fs[1..]) + last;
    }
  }

  lemma DataNone(arrived: seq<byte>)
    ensures arrived + Data([]) == arrived
  {
  }

  lemma {:induction false} DataFirst(fs: seq<MuxFrame>, arrived: seq<byte>)
    requires fs != []
    ensures arrived + Data(fs) == (if fs[0].typ == DATA then arrived + fs[0].payload else arrived) + Data(fs[1..])
  {
    var first, rest := if fs[0].typ == DATA then fs[0].payload else [], Data(fs[1..]);
    assert Data(fs) == first + rest;
    hide Data;
    assert arrived + (first + rest) == arrived + first + rest;
  }

  lemma {:induction false} ClosesAppend(fs: seq<MuxFrame>, f: MuxFrame, arrived: seq<byte>, before: Option<seq<byte>>,
                                        after: Option<seq<byte>>)
    requires ClosesAfter(fs, arrived, before)
    requires before.Some? ==> after == before
    requires f.typ == CLOSE ==> after == Some(arrived + Data(fs))
    ensures ClosesAfter(fs + [f], arrived, after)
  {
    hide Data;
    if fs == [] {
      assert fs + [f] == [f];
      DataNone(arrived);
    } else {
      assert (fs + [f])[1..] == fs[1..] + [f];
      var arrived' := if fs[0].typ == DATA then arrived + fs[0].payload else arrived;
      DataFirst(fs, arrived);
      ClosesAppend(fs[1..], f, arrived', before, after);
    }
  }

  /**
   * What one direction of one stream depends on. Sender: whether it may send, what it has sent and, once CLOSE is
   * sent, what came before. Receiver: whether the object exists, the bytes that have arrived for it and those that had
   * by the peer's CLOSE, whether it is shut, whether it is listed and whether its mux is closed. `opens` is the
   * direction that carries OPEN.
   */
  datatype Channel = Channel(frames: seq<MuxFrame>, ready: bool, sent: seq<byte>, before: Option<seq<byte>>,
                             made: bool, failed: bool, arrived: seq<byte>, ended: Option<seq<byte>>, shut: bool,
                             listed: bool, closed: bool, opens: bool)

  function Before(r: Rec): Option<seq<byte>> {
    if r.closing.CloseSent? then Some(r.closing.before) else None
  }

  function Ended(r: Rec): Option<seq<byte>> {
    if r.atClose.Some? then Some(r.atClose.value.arrived) else None
  }

  function ChannelOf(w: World, to: Side, id: u32): Channel {
    var snd, rcv := EndOf(w, Other(to)), EndOf(w, to);
    var ready := id in snd.streams && snd.streams[id].phase == Ready;
    var made := id in rcv.streams;
    Channel(Filter(Wire(w, to), id),
            ready, if ready then Sent(snd.streams[id]) else [], if ready then Before(snd.streams[id]) else None,
            made, made && rcv.streams[id].phase == Phase.Failed, if made then rcv.streams[id].arrived else [],
            if made then Ended(rcv.streams[id]) else None, made && MuxStreams.Shut(rcv.streams[id].s),
            id in rcv.table, rcv.closed, to == Connector)
  }

  ghost predicate ChannelInv(c: Channel) {
    && (!c.ready ==> c.frames == [] && c.sent == [] && c.before == None)
    && (c.opens && c.made ==> c.ready)
    && (c.listed ==> c.made)
    && (!c.made ==> c.arrived == [] && c.ended == None && !c.shut && !c.failed)
    && (c.failed ==> !c.ready)
    && (c.made ==> ReceiverInv(c))
    && (!c.made && c.opens && !c.closed && c.ready ==>
          c.frames != [] && c.frames[0].typ == OPEN && Data(c.frames) == c.sent
          && ClosesAfter(c.frames, [], c.before))
    && NoOpen(if c.opens && !c.made && c.frames != [] then c.frames[1..] else c.frames)
  }

  ghost predicate ReceiverInv(c: Channel) {
    && (c.listed ==> c.arrived + Data(c.frames) == c.sent && ClosesAfter(c.frames, c.arrived, c.before))
    && c.arrived <= c.sent
    && (c.ended.Some? ==> c.before == c.ended && c.ended.value <= c.arrived)
    && (!c.listed && !c.closed && !c.failed && !c.shut ==> c.ended.Some?)
  }

  ghost predicate Inv(w: World) {
    && (forall to, id :: ChannelInv(ChannelOf(w, to, id)))
    && (forall id :: id in w.srv.streams ==> id <= w.srv.nextID)
    && (forall side, id :: Has(w, side, id) ==> RecInv(EndOf(w, side).streams[id]))
  }

  ghost predicate RecInv(r: Rec) {
    && |r.pending| <= |r.accepted| && r.pending == r.accepted[|r.accepted| - |r.pending|..]
    && (r.phase != Ready ==> r.accepted == [] && r.pending == [])
    && (r.closing == Never <==> !r.s.localDone)
    && (r.phase != Ready ==> r.closing == Never)
    && ReadInv(r)
  }

  /** A stream keeps all that arrives until it is shut; whatever deliver drops is missing ever after. */
  ghost predicate ReadInv(r: Rec) {
    && (if r.dropped then MuxStreams.Shut(r.s) && |Have(r)| < |r.arrived| else Have(r) == r.arrived)
    && (r.s.remoteEOF <==> r.atClose.Some?)
    && (r.atClose.Some? ==> MarkInv(r.atClose.value, Have(r), r.dropped))
    && (r.reader != Idle ==> r.s.readBuf == [])
    && NoEmpty(r.s.queue)
  }

  ghost predicate MarkInv(m: Mark, have: seq<byte>, dropped: bool) {
    && (if m.dropped then |m.had| < |m.arrived| else m.had == m.arrived)
    && m.had <= have && (m.dropped ==> dropped)
  }

  /** What a step leaves alone that neither reads nor receives. */
  ghost predicate SameReads(r: Rec, r': Rec) {
    && r'.s.queue == r.s.queue && r'.s.readBuf == r.s.readBuf && r'.s.remoteEOF == r.s.remoteEOF
    && (MuxStreams.Shut(r.s) ==> MuxStreams.Shut(r'.s))
    && r'.reader == r.reader && r'.arrived == r.arrived && r'.dropped == r.dropped && r'.atClose == r.atClose
    && r'.got == r.got
  }

  lemma SameReadsInv(r: Rec, r': Rec)
    requires ReadInv(r) && SameReads(r, r')
    ensures ReadInv(r')
  {
    hide Queued;
  }

  lemma DeliveredInv(r: Rec, p: seq<byte>, drop: bool)
    requires ReadInv(r) && CanDeliver(r.s, p)
    ensures ReadInv(Delivered(r, p, drop))
  {
    hide Unread, Queued;
    DeliverUnread(r.s, p, drop);
    DeliverNoEmpty(r.s, p, drop);
    assert r.got + (Unread(r.s) + p) == Have(r) + p;
    assert Unread(r.s) + [] == Unread(r.s);
  }

  lemma PeerClosedInv(r: Rec, drop: bool)
    requires ReadInv(r)
    ensures ReadInv(PeerClosed(r, drop))
  {
    hide Unread, Queued;
    RemoteCloseUnread(r.s, drop);
    RemoteCloseNoEmpty(r.s, drop);
  }

  lemma AfterReadInv(r: Rec, o: (Stream, Reader, ReadResult))
    requires ReadInv(r) && ReadsFront(r.s, o)
    ensures ReadInv(AfterRead(r, o))
  {
    hide Unread, Queued;
    assert r.got + ReadBytes(o.2) + Unread(o.0) == r.got + (ReadBytes(o.2) + Unread(o.0));
  }

  // ---- What each kind of step does to a channel ----

  lemma SendChannel(c: Channel, f: MuxFrame, sent: seq<byte>, before: Option<seq<byte>>)
    requires ChannelInv(c) && c.ready && f.typ != OPEN
    requires if f.typ == DATA then sent == c.sent + f.payload else sent == c.sent
    requires if f.typ == CLOSE then c.before == None && before == Some(c.sent) else before == c.before
    ensures ChannelInv(c.(frames := c.frames + [f], sent := sent, before := before))
  {
    hide Data, ClosesAfter;
    DataAppend(c.frames, f);
    if c.made && c.listed {
      ClosesAppend(c.frames, f, c.arrived, c.before, before);
    }
    if !c.made && c.opens && !c.closed {
      DataOnly(c.frames);
      ClosesAppend(c.frames, f, [], c.before, before);
    }
  }

  lemma DataOnly(fs: seq<MuxFrame>)
    ensures [] + Data(fs) == Data(fs)
  {
  }

  lemma OpenChannel(c: Channel, f: MuxFrame)
    requires ChannelInv(c) && !c.ready && c.opens && f.typ == OPEN
    ensures ChannelInv(c.(frames := c.frames + [f], ready := true))
  {
    assert c.frames + [f] == [f];
    assert Data([f]) == [];
  }

  /** A frame of this stream arrives and, unless it is OPEN, finds no listed stream. */
  lemma SkipChannel(c: Channel)
    requires ChannelInv(c) && c.frames != []
    requires c.frames[0].typ == OPEN ==> !c.opens || c.closed
    requires c.frames[0].typ == DATA || c.frames[0].typ == CLOSE ==> !c.listed
    ensures ChannelInv(c.(frames := c.frames[1..]))
  {
    hide Data;
    DataFirst(c.frames, c.arrived);
  }

  lemma AcceptChannel(c: Channel)
    requires ChannelInv(c) && c.frames != [] && c.frames[0].typ == OPEN && c.opens && !c.closed
    ensures !c.made
    ensures ChannelInv(c.(frames := c.frames[1..], made := true, failed := false, arrived := [], listed := true))
  {
    assert [] + Data(c.frames[1..]) == Data(c.frames);
  }

  lemma DataChannel(c: Channel)
    requires ChannelInv(c) && c.frames != [] && c.frames[0].typ == DATA && c.listed
    ensures ChannelInv(c.(frames := c.frames[1..], arrived := c.arrived + c.frames[0].payload))
  {
    assert c.arrived + c.frames[0].payload + Data(c.frames[1..]) == c.arrived + Data(c.frames);
  }

  lemma CloseChannel(c: Channel)
    requires ChannelInv(c) && c.frames != [] && c.frames[0].typ == CLOSE && c.listed
    ensures ChannelInv(c.(frames := c.frames[1..], ended := Some(c.arrived)))
  {
  }

  lemma ResetChannel(c: Channel)
    requires ChannelInv(c) && c.frames != [] && c.frames[0].typ == RST && c.listed
    ensures ChannelInv(c.(frames := c.frames[1..], shut := true))
  {
  }
}
