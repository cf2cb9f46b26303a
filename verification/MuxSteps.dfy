/** Every step of the two ends keeps the invariant of all channels. */
module MuxSteps {
  import opened Bytes
  import opened MuxFrames
  import opened MuxStreams
  import opened MuxChannels
  import opened MuxSystem

  ghost predicate Elsewhere(w: World, w': World, id: u32) {
    forall to, j :: j != id ==> ChannelOf(w', to, j) == ChannelOf(w, to, j)
  }

  ghost predicate Records(w: World) {
    && (forall id :: id in w.srv.streams ==> id <= w.srv.nextID)
    && (forall side, id :: Has(w, side, id) ==> RecInv(EndOf(w, side).streams[id]))
  }

  lemma Conclude(w: World, w': World, id: u32)
    requires Inv(w) && Elsewhere(w, w', id) && Records(w')
    requires ChannelInv(ChannelOf(w', Server, id)) && ChannelInv(ChannelOf(w', Connector, id))
    ensures Inv(w')
  {
    hide ChannelOf, ChannelInv;
    forall to, j ensures ChannelInv(ChannelOf(w', to, j)) {
      if j != id {
        assert ChannelOf(w', to, j) == ChannelOf(w, to, j);
        assert ChannelInv(ChannelOf(w, to, j));
      } else {
        assert to == Server || to == Connector;
      }
    }
  }

  lemma RecordsWith(w: World, side: Side, id: u32, r: Rec)
    requires Records(w) && Has(w, side, id) && RecInv(r)
    ensures Records(WithRec(w, side, id, r))
  {
    hide RecInv;
    var w' := WithRec(w, side, id, r);
    forall s, j | Has(w', s, j) ensures RecInv(EndOf(w', s).streams[j]) {
      if s != side || j != id {
        assert Has(w, s, j);
        assert EndOf(w', s).streams[j] == EndOf(w, s).streams[j];
      }
    }
  }

  /** A record changes; nothing else does. */
  lemma RecordElsewhere(w: World, side: Side, id: u32, r: Rec)
    requires Has(w, side, id)
    ensures Elsewhere(w, WithRec(w, side, id, r), id)
  {
    hide Filter;
  }

  lemma UnlistElsewhere(w: World, side: Side, id: u32)
    ensures Elsewhere(w, Unlist(w, side, id), id)
  {
    hide Filter;
  }

  lemma SendElsewhere(w: World, from: Side, f: MuxFrame)
    ensures Elsewhere(w, Send(w, from, f), f.id)
  {
    hide Filter, Sent, Before;
    var wire := Wire(w, Other(from));
    forall to, j | j != f.id ensures ChannelOf(Send(w, from, f), to, j) == ChannelOf(w, to, j) {
      FilterAppend(wire, f, j);
    }
  }

  /** The receiver sees no difference between the two records. */
  ghost predicate SameToReceiver(r: Rec, r': Rec) {
    r'.arrived == r.arrived && Ended(r') == Ended(r) && MuxStreams.Shut(r'.s) == MuxStreams.Shut(r.s)
  }

  ghost predicate SameToSender(r: Rec, r': Rec) {
    Sent(r') == Sent(r) && Before(r') == Before(r)
  }

  /** The channels of a stream after its record on one side has changed. */
  lemma RecordChannels(w: World, side: Side, id: u32, r: Rec)
    requires Has(w, side, id) && r.phase == EndOf(w, side).streams[id].phase
    ensures ChannelOf(WithRec(w, side, id, r), side, id)
            == ChannelOf(w, side, id).(arrived := r.arrived, ended := Ended(r), shut := MuxStreams.Shut(r.s))
    ensures SameToReceiver(EndOf(w, side).streams[id], r) ==>
              ChannelOf(WithRec(w, side, id, r), side, id) == ChannelOf(w, side, id)
    ensures SameToSender(EndOf(w, side).streams[id], r) ==>
              ChannelOf(WithRec(w, side, id, r), Other(side), id) == ChannelOf(w, Other(side), id)
    ensures ChannelOf(w, side, id).made && ChannelOf(w, side, id).arrived == EndOf(w, side).streams[id].arrived
    ensures ChannelOf(w, side, id).ended == Ended(EndOf(w, side).streams[id])
  {
    hide Filter, Sent, Before;
  }

  lemma InvAt(w: World, side: Side, id: u32)
    requires Inv(w)
    ensures ChannelInv(ChannelOf(w, side, id)) && ChannelInv(ChannelOf(w, Other(side), id)) && Records(w)
  {
    hide ChannelInv, ChannelOf, RecInv;
  }

  lemma ShutChannel(c: Channel)
    requires ChannelInv(c) && c.made
    ensures ChannelInv(c.(shut := true))
  {
  }

  lemma BothSides(w: World, side: Side, id: u32)
    requires ChannelInv(ChannelOf(w, side, id)) && ChannelInv(ChannelOf(w, Other(side), id))
    ensures ChannelInv(ChannelOf(w, Server, id)) && ChannelInv(ChannelOf(w, Connector, id))
  {
  }

  /** A step inside one stream object that neither channel notices. */
  lemma KeepQuiet(w: World, side: Side, id: u32, r: Rec)
    requires Inv(w) && Has(w, side, id) && RecInv(r) && r.phase == EndOf(w, side).streams[id].phase
    requires SameToReceiver(EndOf(w, side).streams[id], r) && SameToSender(EndOf(w, side).streams[id], r)
    ensures Inv(WithRec(w, side, id, r))
  {
    hide Inv, ChannelInv, ChannelOf, WithRec, RecInv, Records, Elsewhere, SameToReceiver, SameToSender;
    var w' := WithRec(w, side, id, r);
    InvAt(w, side, id);
    RecordChannels(w, side, id, r);
    RecordElsewhere(w, side, id, r);
    RecordsWith(w, side, id, r);
    BothSides(w', side, id);
    Conclude(w, w', id);
  }

  /** A stream is shut. */
  lemma KeepShut(w: World, side: Side, id: u32, r: Rec)
    requires Inv(w) && Has(w, side, id) && RecInv(r) && r.phase == EndOf(w, side).streams[id].phase
    requires SameToSender(EndOf(w, side).streams[id], r) && MuxStreams.Shut(r.s)
    requires r.arrived == EndOf(w, side).streams[id].arrived && Ended(r) == Ended(EndOf(w, side).streams[id])
    ensures Inv(WithRec(w, side, id, r))
  {
    hide Inv, ChannelInv, ChannelOf, WithRec, RecInv, Records, Elsewhere, SameToReceiver, SameToSender;
    var w' := WithRec(w, side, id, r);
    InvAt(w, side, id);
    RecordChannels(w, side, id, r);
    ShutChannel(ChannelOf(w, side, id));
    RecordElsewhere(w, side, id, r);
    RecordsWith(w, side, id, r);
    BothSides(w', side, id);
    Conclude(w, w', id);
  }

  lemma SendChannels(w: World, side: Side, r: Rec, f: MuxFrame)
    requires HasReady(w, side, f.id) && r.phase == Ready && SameToReceiver(EndOf(w, side).streams[f.id], r)
    ensures var w' := Send(WithRec(w, side, f.id, r), side, f);
      && ChannelOf(w', Other(side), f.id)
         == ChannelOf(w, Other(side), f.id).(frames := ChannelOf(w, Other(side), f.id).frames + [f],
                                             sent := Sent(r), before := Before(r))
      && ChannelOf(w', side, f.id) == ChannelOf(w, side, f.id)
    ensures ChannelOf(w, Other(side), f.id).ready
    ensures ChannelOf(w, Other(side), f.id).sent == Sent(EndOf(w, side).streams[f.id])
    ensures ChannelOf(w, Other(side), f.id).before == Before(EndOf(w, side).streams[f.id])
  {
    hide Filter, Sent, Before;
    FilterAppend(Wire(w, Other(side)), f, f.id);
  }

  /** A frame other than OPEN is written. */
  lemma KeepSend(w: World, side: Side, r: Rec, f: MuxFrame)
    requires Inv(w) && HasReady(w, side, f.id) && RecInv(r) && r.phase == Ready && f.typ != OPEN
    requires SameToReceiver(EndOf(w, side).streams[f.id], r)
    requires if f.typ == DATA then Sent(r) == Sent(EndOf(w, side).streams[f.id]) + f.payload
             else Sent(r) == Sent(EndOf(w, side).streams[f.id])
    requires if f.typ == CLOSE then Before(EndOf(w, side).streams[f.id]) == None && Before(r) == Some(Sent(r))
             else Before(EndOf(w, side).streams[f.id]) == Before(r)
    ensures Inv(Send(WithRec(w, side, f.id, r), side, f))
  {
    hide Inv, ChannelInv, ChannelOf, RecInv, Records, Elsewhere, SameToReceiver, Sent, Before;
    var mid := WithRec(w, side, f.id, r);
    var w' := Send(mid, side, f);
    InvAt(w, side, f.id);
    SendChannels(w, side, r, f);
    SendChannel(ChannelOf(w, Other(side), f.id), f, Sent(r), Before(r));
    RecordElsewhere(w, side, f.id, r);
    SendElsewhere(mid, side, f);
    RecordsWith(w, side, f.id, r);
    BothSides(w', side, f.id);
    ElsewhereTrans(w, mid, w', f.id);
    SameRecords(mid, w');
    Conclude(w, w', f.id);
  }

  lemma ElsewhereTrans(w: World, mid: World, w': World, id: u32)
    requires Elsewhere(w, mid, id) && Elsewhere(mid, w', id)
    ensures Elsewhere(w, w', id)
  {
    hide ChannelOf;
    forall to, j | j != id ensures ChannelOf(w', to, j) == ChannelOf(w, to, j) {
      assert ChannelOf(mid, to, j) == ChannelOf(w, to, j);
    }
  }

  lemma SameRecords(w: World, w': World)
    requires Records(w) && w'.srv.streams == w.srv.streams && w'.con.streams == w.con.streams
    requires w'.srv.nextID == w.srv.nextID
    ensures Records(w')
  {
    hide RecInv;
    forall side, id | Has(w', side, id) ensures RecInv(EndOf(w', side).streams[id]) {
      assert Has(w, side, id);
    }
  }

  lemma KeepBeginWrite(w: World, side: Side, id: u32, p: seq<byte>)
    requires Inv(w)
    ensures Inv(StepBeginWrite(w, side, id, p))
  {
    hide Inv, ChannelInv, ChannelOf, ReadInv, Records;
    if HasReady(w, side, id) {
      var r := EndOf(w, side).streams[id];
      if !(r.pending != [] || MuxStreams.Shut(r.s) || r.s.localDone) {
        var r' := r.(pending := p, accepted := r.accepted + p);
        InvAt(w, side, id);
        RecordOf(w, side, id);
        SameReadsInv(r, r');
        KeepQuiet(w, side, id, r');
      }
    }
  }

  /** A section of Read takes bytes off the front; no channel notices. */
  lemma KeepAfterRead(w: World, side: Side, id: u32, o: (Stream, Reader, ReadResult))
    requires Inv(w) && Has(w, side, id) && ReadsFront(EndOf(w, side).streams[id].s, o)
    ensures Inv(WithRec(w, side, id, AfterRead(EndOf(w, side).streams[id], o)))
  {
    hide Inv, ChannelInv, ChannelOf, WithRec, RecInv, Records, AfterRead, ReadsFront, SameToReceiver, SameToSender;
    InvAt(w, side, id);
    RecordOf(w, side, id);
    var r := EndOf(w, side).streams[id];
    AfterReadSame(r, o);
    KeepQuiet(w, side, id, AfterRead(r, o));
  }

  /** What the sender's side of a record depends on. */
  ghost predicate SameWrites(r: Rec, r': Rec) {
    && r'.accepted == r.accepted && r'.pending == r.pending && r'.closing == r.closing && r'.phase == r.phase
    && r'.s.localDone == r.s.localDone
  }

  lemma SameWritesInv(r: Rec, r': Rec)
    requires RecInv(r) && SameWrites(r, r') && ReadInv(r')
    ensures RecInv(r')
  {
    hide ReadInv;
  }

  lemma SameWritesSent(r: Rec, r': Rec)
    requires SameWrites(r, r')
    ensures SameToSender(r, r')
  {
  }

  lemma SameArrivals(r: Rec, r': Rec)
    requires r'.arrived == r.arrived && r'.atClose == r.atClose && r'.s.resetErr == r.s.resetErr
    ensures SameToReceiver(r, r')
  {
  }

  lemma ReadPart(r: Rec)
    requires RecInv(r)
    ensures ReadInv(r)
  {
    hide ReadInv;
  }

  lemma AfterReadSame(r: Rec, o: (Stream, Reader, ReadResult))
    requires RecInv(r) && ReadsFront(r.s, o)
    ensures RecInv(AfterRead(r, o)) && AfterRead(r, o).phase == r.phase
    ensures SameToReceiver(r, AfterRead(r, o)) && SameToSender(r, AfterRead(r, o))
  {
    hide RecInv, ReadInv, Unread, ReadBytes, SameToReceiver, SameToSender;
    ReadPart(r);
    AfterReadInv(r, o);
    SameWritesInv(r, AfterRead(r, o));
    SameWritesSent(r, AfterRead(r, o));
    SameArrivals(r, AfterRead(r, o));
  }

  /** A reader past its first section finds nothing left over from an earlier chunk. */
  lemma ReaderHasNoRest(w: World, side: Side, id: u32)
    requires Inv(w) && Has(w, side, id) && EndOf(w, side).streams[id].reader != Idle
    ensures EndOf(w, side).streams[id].s.readBuf == []
  {
    hide Inv, ChannelInv, ChannelOf, Records;
    InvAt(w, side, id);
    RecordOf(w, side, id);
  }

  lemma KeepReads(w: World, side: Side, id: u32, n: nat, done: bool)
    requires Inv(w)
    ensures Inv(StepBeginRead(w, side, id, n)) && Inv(StepSelectRead(w, side, id, done))
    ensures Inv(StepCheckEnd(w, side, id))
  {
    hide Inv, WithRec, AfterRead, ReadStart, ReadRound, ReadEnd, ReadsFront;
    if HasReady(w, side, id) {
      var r := EndOf(w, side).streams[id];
      if r.reader == Idle {
        ReadStartUnread(r.s, n);
        KeepAfterRead(w, side, id, ReadStart(r.s, n));
      } else {
        ReaderHasNoRest(w, side, id);
        if r.reader.Waiting? {
          ReadRoundUnread(r.s, r.reader.n, done);
          KeepAfterRead(w, side, id, ReadRound(r.s, r.reader.n, done));
        } else {
          ReadEndUnread(r.s, r.reader.n);
          KeepAfterRead(w, side, id, ReadEnd(r.s, r.reader.n));
        }
      }
    }
  }

  lemma KeepCloseBegin(w: World, side: Side, id: u32)
    requires Inv(w)
    ensures Inv(StepCloseBegin(w, side, id))
  {
    hide Inv, ChannelInv, ChannelOf, ReadInv, Records;
    if HasReady(w, side, id) {
      var r := EndOf(w, side).streams[id];
      if !r.s.localDone {
        var r' := r.(s := r.s.(localDone := true), closing := Marked);
        InvAt(w, side, id);
        RecordOf(w, side, id);
        SameReadsInv(r, r');
        KeepQuiet(w, side, id, r');
      }
    }
  }

  lemma KeepWriteChunk(w: World, side: Side, id: u32)
    requires Inv(w)
    ensures Inv(StepWriteChunk(w, side, id))
  {
    hide Inv, ChannelInv, ChannelOf, ReadInv, Records;
    if HasReady(w, side, id) {
      var r := EndOf(w, side).streams[id];
      if r.pending != [] {
        InvAt(w, side, id);
        RecordOf(w, side, id);
        if EndOf(w, side).broken {
          var r' := r.(accepted := Sent(r), pending := [], s := Shutdown(r.s, MuxClosed));
          SameReadsInv(r, r');
          KeepShut(w, side, id, r');
        } else {
          var chunk := Chunk(r.pending);
          var r' := r.(pending := r.pending[|chunk|..]);
          assert Sent(r') == Sent(r) + chunk;
          SameReadsInv(r, r');
          KeepSend(w, side, r', MuxFrame(DATA, id, chunk));
        }
      }
    }
  }

  lemma KeepCloseSend(w: World, side: Side, id: u32)
    requires Inv(w)
    ensures Inv(StepCloseSend(w, side, id))
  {
    hide Inv, ChannelInv, ChannelOf, ReadInv, Records;
    if HasReady(w, side, id) {
      var r := EndOf(w, side).streams[id];
      if r.closing == Marked {
        InvAt(w, side, id);
        RecordOf(w, side, id);
        if EndOf(w, side).broken {
          SameReadsInv(r, r.(closing := Lost));
          KeepQuiet(w, side, id, r.(closing := Lost));
        } else {
          var r' := r.(closing := CloseSent(Sent(r)));
          SameReadsInv(r, r');
          KeepSend(w, side, r', MuxFrame(CLOSE, id, []));
        }
      }
    }
  }

  lemma SameRecord(w: World, side: Side, id: u32)
    requires Has(w, side, id)
    ensures WithRec(w, side, id, EndOf(w, side).streams[id]) == w
  {
    var e := EndOf(w, side);
    assert e.streams[id := e.streams[id]] == e.streams;
  }

  lemma KeepSendReset(w: World, side: Side, id: u32)
    requires Inv(w)
    ensures Inv(StepSendReset(w, side, id))
  {
    hide Inv, ChannelInv, ChannelOf, RecInv, Records;
    if HasReady(w, side, id) && !EndOf(w, side).broken {
      InvAt(w, side, id);
      RecordOf(w, side, id);
      SameRecord(w, side, id);
      KeepSend(w, side, EndOf(w, side).streams[id], MuxFrame(RST, id, []));
    }
  }

  lemma KeepShutStep(w: World, side: Side, id: u32, cause: StreamError)
    requires Inv(w)
    ensures Inv(StepShut(w, side, id, cause))
  {
    hide Inv, ChannelInv, ChannelOf, ReadInv, Records;
    if Has(w, side, id) {
      var r := EndOf(w, side).streams[id];
      InvAt(w, side, id);
      RecordOf(w, side, id);
      SameReadsInv(r, r.(s := Shutdown(r.s, cause)));
      KeepShut(w, side, id, r.(s := Shutdown(r.s, cause)));
    }
  }

  lemma UnlistChannels(w: World, side: Side, id: u32)
    ensures ChannelOf(Unlist(w, side, id), side, id) == ChannelOf(w, side, id).(listed := false)
    ensures ChannelOf(Unlist(w, side, id), Other(side), id) == ChannelOf(w, Other(side), id)
  {
    hide Filter, Sent, Before;
  }

  lemma UnlistChannel(c: Channel)
    requires ChannelInv(c) && c.made && (c.shut || c.ended.Some? || c.failed)
    ensures ChannelInv(c.(listed := false))
  {
  }

  lemma KeepUnlist(w: World, side: Side, id: u32)
    requires Inv(w) && Has(w, side, id)
    requires var r := EndOf(w, side).streams[id]; MuxStreams.Shut(r.s) || r.atClose.Some? || r.phase == Phase.Failed
    ensures Inv(Unlist(w, side, id))
  {
    hide Inv, ChannelInv, RecInv, Records, Elsewhere, Filter, Sent, Before;
    var c := ChannelOf(w, side, id);
    assert c.made && (c.shut || c.ended.Some? || c.failed);
    hide ChannelOf;
    InvAt(w, side, id);
    UnlistChannel(c);
    UnlistChannels(w, side, id);
    UnlistElsewhere(w, side, id);
    SameRecords(w, Unlist(w, side, id));
    BothSides(Unlist(w, side, id), side, id);
    Conclude(w, Unlist(w, side, id), id);
  }

  lemma KeepRemove(w: World, side: Side, id: u32)
    requires Inv(w)
    ensures Inv(StepRemove(w, side, id))
  {
    hide Inv, Unlist, Records;
    if StepRemove(w, side, id) != w {
      InvAt(w, side, id);
      RecordOf(w, side, id);
      KeepUnlist(w, side, id);
    }
  }

  lemma PopElsewhere(w: World, side: Side)
    requires Wire(w, side) != []
    ensures Elsewhere(w, WithWire(w, side, Wire(w, side)[1..]), Wire(w, side)[0].id)
  {
    hide Sent, Before;
  }

  lemma PopChannels(w: World, side: Side)
    requires Wire(w, side) != []
    ensures var f, w' := Wire(w, side)[0], WithWire(w, side, Wire(w, side)[1..]);
      && ChannelOf(w, side, f.id).frames == [f] + ChannelOf(w', side, f.id).frames
      && ChannelOf(w', side, f.id) == ChannelOf(w, side, f.id).(frames := ChannelOf(w, side, f.id).frames[1..])
      && ChannelOf(w', Other(side), f.id) == ChannelOf(w, Other(side), f.id)
  {
    hide Sent, Before;
  }

  /** A frame is taken off the wire and changes the record of its own stream on the receiving side only. */
  lemma KeepReceived(w: World, side: Side, r: Rec)
    requires Inv(w) && Wire(w, side) != [] && Has(w, side, Wire(w, side)[0].id) && RecInv(r)
    requires var was := EndOf(w, side).streams[Wire(w, side)[0].id]; r.phase == was.phase && SameToSender(was, r)
    requires var c := ChannelOf(w, side, Wire(w, side)[0].id);
      c.frames != [] ==> ChannelInv(c.(frames := c.frames[1..], arrived := r.arrived, ended := Ended(r),
                                       shut := MuxStreams.Shut(r.s)))
    ensures Inv(WithRec(WithWire(w, side, Wire(w, side)[1..]), side, Wire(w, side)[0].id, r))
  {
    hide Inv, ChannelInv, ChannelOf, RecInv, Records, Elsewhere, SameToReceiver, SameToSender;
    var id := Wire(w, side)[0].id;
    var mid := WithWire(w, side, Wire(w, side)[1..]);
    var w' := WithRec(mid, side, id, r);
    InvAt(w, side, id);
    PopChannels(w, side);
    RecordChannels(mid, side, id, r);
    PopElsewhere(w, side);
    RecordElsewhere(mid, side, id, r);
    ElsewhereTrans(w, mid, w', id);
    SameRecords(w, mid);
    RecordsWith(mid, side, id, r);
    BothSides(w', side, id);
    Conclude(w, w', id);
  }

  /** A frame is taken off the wire and dropped. */
  lemma KeepSkipped(w: World, side: Side)
    requires Inv(w) && Wire(w, side) != []
    requires var c := ChannelOf(w, side, Wire(w, side)[0].id);
      c.frames != [] ==> ChannelInv(c.(frames := c.frames[1..]))
    ensures Inv(WithWire(w, side, Wire(w, side)[1..]))
  {
    hide Inv, ChannelInv, ChannelOf, Records, Elsewhere;
    var w' := WithWire(w, side, Wire(w, side)[1..]);
    InvAt(w, side, Wire(w, side)[0].id);
    PopChannels(w, side);
    PopElsewhere(w, side);
    SameRecords(w, w');
    BothSides(w', side, Wire(w, side)[0].id);
    Conclude(w, w', Wire(w, side)[0].id);
  }

  /** The first frame on the wire is the first one of its own stream, and what the receiver knows of that stream. */
  lemma HeadChannel(w: World, side: Side)
    requires Inv(w) && Wire(w, side) != []
    ensures var f, e := Wire(w, side)[0], EndOf(w, side);
      var c := ChannelOf(w, side, f.id);
      && ChannelInv(c) && c.frames != [] && c.frames[0] == f
      && c.listed == (f.id in e.table) && c.closed == e.closed && c.opens == (side == Connector)
      && c.made == (f.id in e.streams)
      && (c.made ==> c.arrived == e.streams[f.id].arrived && c.ended == Ended(e.streams[f.id])
                     && c.shut == MuxStreams.Shut(e.streams[f.id].s) && RecInv(e.streams[f.id]))
  {
    hide Inv, ChannelInv, Have, Filter, RecInv, Sent, Before;
    InvAt(w, side, Wire(w, side)[0].id);
    PopChannels(w, side);
    if Has(w, side, Wire(w, side)[0].id) {
      assert RecInv(EndOf(w, side).streams[Wire(w, side)[0].id]);
    }
  }

  lemma KeepData(w: World, side: Side, drop: bool)
    requires Inv(w) && Wire(w, side) != [] && Wire(w, side)[0].typ == DATA
    ensures Inv(StepReceive(w, side, drop))
  {
    hide Inv, ChannelInv, ChannelOf, Unread, Filter;
    var f, e := Wire(w, side)[0], EndOf(w, side);
    var c := ChannelOf(w, side, f.id);
    HeadChannel(w, side);
    if f.id !in e.table || f.id !in e.streams {
      ListedIsMade(c);
      SkipChannel(c);
      KeepSkipped(w, side);
    } else if CanDeliver(e.streams[f.id].s, f.payload) {
      var r := e.streams[f.id];
      DeliveredInv(r, f.payload, drop);
      DataChannel(c);
      KeepReceived(w, side, Delivered(r, f.payload, drop));
    }
  }

  lemma ListedIsMade(c: Channel)
    requires ChannelInv(c)
    ensures c.listed ==> c.made
  {
  }

  lemma KeepCloseFrame(w: World, side: Side, drop: bool)
    requires Inv(w) && Wire(w, side) != [] && Wire(w, side)[0].typ == CLOSE
    ensures Inv(StepReceive(w, side, drop))
  {
    hide Inv, ChannelInv, ChannelOf, Unread, Filter;
    var f, e := Wire(w, side)[0], EndOf(w, side);
    var c := ChannelOf(w, side, f.id);
    HeadChannel(w, side);
    if f.id !in e.table || f.id !in e.streams {
      ListedIsMade(c);
      SkipChannel(c);
      KeepSkipped(w, side);
    } else {
      var r := e.streams[f.id];
      PeerClosedInv(r, drop);
      CloseChannel(c);
      KeepReceived(w, side, PeerClosed(r, drop));
    }
  }

  lemma KeepOtherFrame(w: World, side: Side, drop: bool)
    requires Inv(w) && Wire(w, side) != []
    requires Wire(w, side)[0].typ != OPEN && Wire(w, side)[0].typ != DATA && Wire(w, side)[0].typ != CLOSE
    ensures Inv(StepReceive(w, side, drop))
  {
    hide Inv, ChannelInv, ChannelOf, Filter, ReadInv;
    var f, e := Wire(w, side)[0], EndOf(w, side);
    var c := ChannelOf(w, side, f.id);
    HeadChannel(w, side);
    if f.id in e.table && f.id in e.streams && f.typ == RST {
      var r := e.streams[f.id];
      var r' := r.(s := Shutdown(r.s, StreamReset));
      ResetChannel(c);
      SameReadsInv(r, r');
      KeepReceived(w, side, r');
    } else {
      SkipChannel(c);
      KeepSkipped(w, side);
    }
  }

  lemma AcceptElsewhere(w: World, id: u32)
    ensures Elsewhere(w, w.(con := w.con.(streams := w.con.streams[id := NEW_REC], table := w.con.table + {id})), id)
  {
    hide Filter, Sent, Before;
  }

  lemma AcceptChannels(w: World, id: u32)
    requires id !in w.con.streams
    ensures var w' := w.(con := w.con.(streams := w.con.streams[id := NEW_REC], table := w.con.table + {id}));
      && ChannelOf(w', Connector, id)
         == ChannelOf(w, Connector, id).(made := true, failed := false, arrived := [], listed := true)
      && ChannelOf(w', Server, id) == ChannelOf(w, Server, id).(ready := true)
  {
    hide Filter;
  }

  lemma ReadyChannel(c: Channel)
    requires ChannelInv(c) && !c.opens && !c.failed
    ensures ChannelInv(c.(ready := true))
  {
  }

  lemma KeepOpenFrame(w: World, side: Side, drop: bool)
    requires Inv(w) && Wire(w, side) != [] && Wire(w, side)[0].typ == OPEN
    ensures Inv(StepReceive(w, side, drop))
  {
    hide Inv, ChannelInv, ChannelOf, Filter, Records, Elsewhere, RecInv;
    var f, e := Wire(w, side)[0], EndOf(w, side);
    var c := ChannelOf(w, side, f.id);
    HeadChannel(w, side);
    if side == Server || e.closed {
      SkipChannel(c);
      KeepSkipped(w, side);
    } else {
      AcceptChannel(c);
      var mid := WithWire(w, side, Wire(w, side)[1..]);
      PopChannels(w, side);
      PopElsewhere(w, side);
      AcceptElsewhere(mid, f.id);
      AcceptChannels(mid, f.id);
      ElsewhereTrans(w, mid, StepReceive(w, side, drop), f.id);
      InvAt(w, side, f.id);
      ServerSide(w, f.id);
      FramesAreReady(c);
      ReadyChannel(ChannelOf(mid, Server, f.id));
      SameRecords(w, mid);
      NewRecord(mid, f.id);
      Conclude(w, StepReceive(w, side, drop), f.id);
    }
  }

  lemma ServerSide(w: World, id: u32)
    ensures !ChannelOf(w, Server, id).opens
    ensures ChannelOf(w, Connector, id).ready ==> !ChannelOf(w, Server, id).failed
  {
    hide Filter, Sent, Before;
  }

  lemma FramesAreReady(c: Channel)
    requires ChannelInv(c) && c.frames != []
    ensures c.ready
  {
  }

  lemma NewRecord(w: World, id: u32)
    requires Records(w)
    ensures Records(w.(con := w.con.(streams := w.con.streams[id := NEW_REC], table := w.con.table + {id})))
  {
    var w' := w.(con := w.con.(streams := w.con.streams[id := NEW_REC], table := w.con.table + {id}));
    forall side, j | Has(w', side, j) ensures RecInv(EndOf(w', side).streams[j]) {
      if side == Server || j != id {
        assert Has(w, side, j);
      }
    }
  }

  lemma KeepReceive(w: World, side: Side, drop: bool)
    requires Inv(w)
    ensures Inv(StepReceive(w, side, drop))
  {
    hide Inv;
    if Wire(w, side) != [] {
      if Wire(w, side)[0].typ == OPEN {
        KeepOpenFrame(w, side, drop);
      } else if Wire(w, side)[0].typ == DATA {
        KeepData(w, side, drop);
      } else if Wire(w, side)[0].typ == CLOSE {
        KeepCloseFrame(w, side, drop);
      } else {
        KeepOtherFrame(w, side, drop);
      }
    }
  }

  const OPENED := NEW_REC.(phase := Opening)

  lemma OpenedElsewhere(w: World, id: u32, next: nat)
    ensures Elsewhere(w, w.(srv := w.srv.(nextID := next, streams := w.srv.streams[id := OPENED],
                                          table := w.srv.table + {id})), id)
  {
    hide Filter, Sent, Before;
  }

  lemma OpenedChannels(w: World, id: u32, next: nat)
    requires id !in w.srv.streams
    ensures var w' := w.(srv := w.srv.(nextID := next, streams := w.srv.streams[id := OPENED],
                                       table := w.srv.table + {id}));
      && ChannelOf(w', Server, id) == ChannelOf(w, Server, id).(made := true, failed := false, arrived := [],
                                                                ended := None, shut := false, listed := true)
      && ChannelOf(w', Connector, id) == ChannelOf(w, Connector, id)
      && ChannelOf(w, Connector, id).opens && !ChannelOf(w, Connector, id).ready
      && ChannelOf(w, Connector, id).made == (id in w.con.streams)
      && ChannelOf(w, Server, id).ready == HasReady(w, Connector, id)
      && !ChannelOf(w, Server, id).opens
  {
    hide Filter;
  }

  lemma OpenedChannel(c: Channel)
    requires ChannelInv(c) && !c.ready && !c.opens
    ensures ChannelInv(c.(made := true, failed := false, arrived := [], ended := None, shut := false, listed := true))
  {
  }

  lemma OpenedRecord(w: World, id: u32)
    requires Records(w) && id == w.srv.nextID + 1
    ensures Records(w.(srv := w.srv.(nextID := id, streams := w.srv.streams[id := OPENED],
                                     table := w.srv.table + {id})))
  {
    var w' := w.(srv := w.srv.(nextID := id, streams := w.srv.streams[id := OPENED], table := w.srv.table + {id}));
    forall side, j | Has(w', side, j) ensures RecInv(EndOf(w', side).streams[j]) {
      if side == Connector || j != id {
        assert Has(w, side, j);
      }
    }
  }

  lemma UnreadyMakes(c: Channel)
    requires ChannelInv(c) && c.opens && !c.ready
    ensures !c.made
  {
  }

  lemma KeepOpenBegin(w: World)
    requires Inv(w)
    ensures Inv(StepOpenBegin(w))
  {
    hide Inv, ChannelInv, ChannelOf, Filter, Elsewhere, RecInv;
    if !w.srv.closed && w.srv.nextID < MAX_ID {
      var id: u32 := w.srv.nextID + 1;
      var w' := StepOpenBegin(w);
      InvAt(w, Server, id);
      assert id !in w.srv.streams;
      hide Records;
      OpenedChannels(w, id, id);
      UnreadyMakes(ChannelOf(w, Connector, id));
      OpenedChannel(ChannelOf(w, Server, id));
      OpenedElsewhere(w, id, id);
      OpenedRecord(w, id);
      Conclude(w, w', id);
    }
  }

  lemma SentOpenChannels(w: World, f: MuxFrame)
    requires Has(w, Server, f.id) && w.srv.streams[f.id].phase == Opening && RecInv(w.srv.streams[f.id])
    ensures var w' := Send(WithRec(w, Server, f.id, w.srv.streams[f.id].(phase := Ready)), Server, f);
      var c := ChannelOf(w, Connector, f.id);
      && ChannelOf(w', Connector, f.id)
         == c.(frames := c.frames + [f], ready := true)
      && ChannelOf(w', Server, f.id) == ChannelOf(w, Server, f.id)
      && c.opens && !c.ready
  {
    hide Filter;
    FilterAppend(Wire(w, Connector), f, f.id);
  }

  lemma FailedChannels(w: World, id: u32)
    requires Has(w, Server, id) && w.srv.streams[id].phase == Opening
    ensures var w' := WithRec(w, Server, id, w.srv.streams[id].(phase := Phase.Failed));
      && ChannelOf(w', Server, id) == ChannelOf(w, Server, id).(failed := true)
      && ChannelOf(w', Connector, id) == ChannelOf(w, Connector, id)
      && ChannelOf(w, Connector, id).opens && !ChannelOf(w, Connector, id).ready && ChannelOf(w, Server, id).made
      && (ChannelOf(w, Server, id).ready ==> ChannelOf(w, Connector, id).made)
  {
    hide Filter, Sent, Before;
  }

  lemma FailedChannel(c: Channel)
    requires ChannelInv(c) && !c.ready && c.made
    ensures ChannelInv(c.(failed := true))
  {
  }

  lemma KeepOpenFailed(w: World, id: u32)
    requires Inv(w) && Has(w, Server, id) && w.srv.streams[id].phase == Opening
    ensures Inv(Unlist(WithRec(w, Server, id, w.srv.streams[id].(phase := Phase.Failed)), Server, id))
  {
    hide Inv, ChannelInv, ChannelOf, Elsewhere, Records, ReadInv, Filter, Sent, Before;
    InvAt(w, Server, id);
    RecordOf(w, Server, id);
    var r := w.srv.streams[id].(phase := Phase.Failed);
    SameReadsInv(w.srv.streams[id], r);
    var mid := WithRec(w, Server, id, r);
    FailedChannels(w, id);
    UnreadyMakes(ChannelOf(w, Connector, id));
    FailedChannel(ChannelOf(w, Server, id));
    RecordElsewhere(w, Server, id, r);
    RecordsWith(w, Server, id, r);
    Conclude(w, mid, id);
    KeepUnlist(mid, Server, id);
  }

  lemma RecordOf(w: World, side: Side, id: u32)
    requires Records(w) && Has(w, side, id)
    ensures RecInv(EndOf(w, side).streams[id])
  {
    hide RecInv;
  }

  lemma KeepOpenSent(w: World, f: MuxFrame)
    requires Inv(w) && Has(w, Server, f.id) && w.srv.streams[f.id].phase == Opening && f.typ == OPEN
    ensures Inv(Send(WithRec(w, Server, f.id, w.srv.streams[f.id].(phase := Ready)), Server, f))
  {
    hide Inv, ChannelInv, ChannelOf, Elsewhere, Records, ReadInv, Filter, Sent, Before;
    InvAt(w, Server, f.id);
    RecordOf(w, Server, f.id);
    var r := w.srv.streams[f.id].(phase := Ready);
    SameReadsInv(w.srv.streams[f.id], r);
    var mid := WithRec(w, Server, f.id, r);
    SentOpenChannels(w, f);
    OpenChannel(ChannelOf(w, Connector, f.id), f);
    RecordElsewhere(w, Server, f.id, r);
    SendElsewhere(mid, Server, f);
    ElsewhereTrans(w, mid, Send(mid, Server, f), f.id);
    RecordsWith(w, Server, f.id, r);
    SameRecords(mid, Send(mid, Server, f));
    Conclude(w, Send(mid, Server, f), f.id);
  }

  lemma KeepOpenSend(w: World, id: u32, dst: seq<byte>)
    requires Inv(w)
    ensures Inv(StepOpenSend(w, id, dst))
  {
    hide Inv, Unlist, Send, WithRec;
    if Has(w, Server, id) && w.srv.streams[id].phase == Opening {
      if |dst| > MAX_PAYLOAD || w.srv.broken {
        KeepOpenFailed(w, id);
      } else {
        KeepOpenSent(w, MuxFrame(OPEN, id, dst));
      }
    }
  }

  lemma ClosedChannel(c: Channel)
    requires ChannelInv(c)
    ensures ChannelInv(c.(closed := true, listed := false))
  {
  }

  lemma KeepMuxClose(w: World, side: Side)
    requires Inv(w)
    ensures Inv(StepMuxClose(w, side))
  {
    hide ChannelInv, Filter, Sent, Before;
    var w' := StepMuxClose(w, side);
    forall to, id ensures ChannelInv(ChannelOf(w', to, id)) {
      var c := ChannelOf(w, to, id);
      assert ChannelInv(c);
      ClosedChannel(c);
      assert ChannelOf(w', to, id) == if to == side then c.(closed := true, listed := false) else c;
    }
    SameRecords(w, w');
  }

  lemma KeepBreak(w: World, side: Side)
    requires Inv(w)
    ensures Inv(Step(w, Break(side)))
  {
    hide ChannelInv, Filter, Sent, Before;
    var w' := Step(w, Break(side));
    forall to, id ensures ChannelInv(ChannelOf(w', to, id)) {
      assert ChannelOf(w', to, id) == ChannelOf(w, to, id);
      assert ChannelInv(ChannelOf(w, to, id));
    }
    SameRecords(w, w');
  }

  lemma StepKeeps(w: World, ev: Event)
    requires Inv(w)
    ensures Inv(Step(w, ev))
  {
    hide Inv;
    match ev
    case OpenBegin => KeepOpenBegin(w);
    case OpenSend(id, dst) => KeepOpenSend(w, id, dst);
    case BeginWrite(side, id, p) => KeepBeginWrite(w, side, id, p);
    case WriteChunk(side, id) => KeepWriteChunk(w, side, id);
    case CloseBegin(side, id) => KeepCloseBegin(w, side, id);
    case CloseSend(side, id) => KeepCloseSend(w, side, id);
    case SendReset(side, id) => KeepSendReset(w, side, id);
    case Shut(side, id, cause) => KeepShutStep(w, side, id, cause);
    case Remove(side, id) => KeepRemove(w, side, id);
    case Receive(side, drop) => KeepReceive(w, side, drop);
    case BeginRead(side, id, n) => KeepReads(w, side, id, n, false);
    case SelectRead(side, id, done) => KeepReads(w, side, id, 0, done);
    case CheckEnd(side, id) => KeepReads(w, side, id, 0, false);
    case MuxClose(side) => KeepMuxClose(w, side);
    case Break(side) => KeepBreak(w, side);
  }

  lemma {:induction false} RunKeeps(w: World, es: seq<Event>)
    requires Inv(w)
    ensures Inv(Run(w, es))
    decreases |es|
  {
    if es != [] {
      hide Inv, Step;
      StepKeeps(w, es[0]);
      RunKeeps(Step(w, es[0]), es[1..]);
    }
  }

  lemma StartInv()
    ensures Inv(START)
  {
  }
}
