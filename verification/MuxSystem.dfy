/**
 * Two ends of one multiplexed connection (internal/revtunnel/stream.go) as a step system: every lock section, every
 * select of Read and every frame write is a step of its own, and the steps of all streams on both ends interleave in
 * any order. Each stream has one reader and one writer at a time, so the rest of a chunk that Read keeps for later is
 * kept in the step that takes the chunk off the queue: only this reader looks at it.
 */
module MuxSystem {
  import opened Bytes
  import opened MuxFrames
  import opened MuxStreams

  datatype Side = Server | Connector

  function Other(side: Side): Side {
    if side == Server then Connector else Server
  }

  /** openStream has allocated the id, has written OPEN, or has failed and dropped the stream. */
  datatype Phase = Opening | Ready | Failed

  /** How far Close has come; CloseSent keeps the bytes whose frames were written before the CLOSE frame. */
  datatype Closing = Never | Marked | CloseSent(before: seq<byte>) | Lost

  /** What a stream had been sent and what it had kept of that when CLOSE arrived. */
  datatype Mark = Mark(arrived: seq<byte>, had: seq<byte>, dropped: bool)

  /**
   * A stream object, its reader and its history: `accepted` are the bytes Write took, `pending` those of them without
   * a frame yet; `arrived` are the bytes of the DATA frames dispatched to it, `dropped` whether deliver has dropped
   * one of them, `got` what Read returned.
   */
  datatype Rec = Rec(s: Stream, phase: Phase, accepted: seq<byte>, pending: seq<byte>, closing: Closing,
                     reader: Reader, arrived: seq<byte>, dropped: bool, atClose: Option<Mark>, got: seq<byte>)

  const NEW_REC := Rec(NEW_STREAM, Ready, [], [], Never, Idle, [], false, None, [])

  /** Read or waiting to be read. */
  function Have(r: Rec): seq<byte> {
    r.got + Unread(r.s)
  }

  /** Bytes whose frames have been written. */
  function Sent(r: Rec): seq<byte> {
    if |r.pending| <= |r.accepted| then r.accepted[..|r.accepted| - |r.pending|] else []
  }

  /** One end: all stream objects made so far, the ids in the stream table, and whether frame writes still succeed. */
  datatype End = End(streams: map<u32, Rec>, table: set<u32>, nextID: nat, closed: bool, broken: bool)

  datatype World = World(srv: End, con: End, toSrv: seq<MuxFrame>, toCon: seq<MuxFrame>)

  const START := World(End(map[], {}, 0, false, false), End(map[], {}, 0, false, false), [], [])

  function EndOf(w: World, side: Side): End {
    if side == Server then w.srv else w.con
  }

  /** The frames on their way to `to`. */
  function Wire(w: World, to: Side): seq<MuxFrame> {
    if to == Server then w.toSrv else w.toCon
  }

  function WithEnd(w: World, side: Side, e: End): World {
    if side == Server then w.(srv := e) else w.(con := e)
  }

  function WithWire(w: World, to: Side, frames: seq<MuxFrame>): World {
    if to == Server then w.(toSrv := frames) else w.(toCon := frames)
  }

  function WithRec(w: World, side: Side, id: u32, r: Rec): World {
    WithEnd(w, side, EndOf(w, side).(streams := EndOf(w, side).streams[id := r]))
  }

  function Unlist(w: World, side: Side, id: u32): World {
    WithEnd(w, side, EndOf(w, side).(table := EndOf(w, side).table - {id}))
  }

  function Send(w: World, from: Side, f: MuxFrame): World {
    WithWire(w, Other(from), Wire(w, Other(from)) + [f])
  }

  predicate Has(w: World, side: Side, id: u32) {
    id in EndOf(w, side).streams
  }

  predicate HasReady(w: World, side: Side, id: u32) {
    Has(w, side, id) && EndOf(w, side).streams[id].phase == Ready
  }

  datatype Event =
    | OpenBegin
    | OpenSend(id: u32, dst: seq<byte>)
    | BeginWrite(side: Side, id: u32, p: seq<byte>)
    | WriteChunk(side: Side, id: u32)
    | CloseBegin(side: Side, id: u32)
    | CloseSend(side: Side, id: u32)
    | SendReset(side: Side, id: u32)
    | Shut(side: Side, id: u32, cause: StreamError)
    | Remove(side: Side, id: u32)
    | Receive(side: Side, drop: bool)
    | BeginRead(side: Side, id: u32, n: nat)
    | SelectRead(side: Side, id: u32, done: bool)
    | CheckEnd(side: Side, id: u32)
    | MuxClose(side: Side)
    | Break(side: Side)

  const MAX_ID: nat := 0xFFFF_FFFF

  /** openStream under the table lock, for fewer than 2^32 opens. */
  function StepOpenBegin(w: World): World {
    if w.srv.closed || w.srv.nextID >= MAX_ID then w else
    var id := w.srv.nextID + 1;
    w.(srv := w.srv.(nextID := id, streams := w.srv.streams[id := NEW_REC.(phase := Opening)],
                     table := w.srv.table + {id}))
  }

  /** The rest of openStream: the OPEN frame, or the stream is dropped again. */
  function StepOpenSend(w: World, id: u32, dst: seq<byte>): World {
    if !Has(w, Server, id) || w.srv.streams[id].phase != Opening then w else
    var r := w.srv.streams[id];
    if |dst| > MAX_PAYLOAD || w.srv.broken then Unlist(WithRec(w, Server, id, r.(phase := Phase.Failed)), Server, id)
    else Send(WithRec(w, Server, id, r.(phase := Ready)), Server, MuxFrame(OPEN, id, dst))
  }

  /** The checks of Write; one writer per stream, so none is under way. */
  function StepBeginWrite(w: World, side: Side, id: u32, p: seq<byte>): World {
    if !HasReady(w, side, id) then w else
    var r := EndOf(w, side).streams[id];
    if r.pending != [] || MuxStreams.Shut(r.s) || r.s.localDone then w
    else WithRec(w, side, id, r.(pending := p, accepted := r.accepted + p))
  }

  function Chunk(p: seq<byte>): seq<byte> {
    if |p| > MAX_PAYLOAD then p[..MAX_PAYLOAD] else p
  }

  /** One round of Write's loop; a failed frame write ends it and shuts the stream. */
  function StepWriteChunk(w: World, side: Side, id: u32): World {
    if !HasReady(w, side, id) then w else
    var r := EndOf(w, side).streams[id];
    if r.pending == [] then w
    else if EndOf(w, side).broken then
      WithRec(w, side, id, r.(accepted := Sent(r), pending := [], s := Shutdown(r.s, MuxClosed)))
    else
      var chunk := Chunk(r.pending);
      Send(WithRec(w, side, id, r.(pending := r.pending[|chunk|..])), side, MuxFrame(DATA, id, chunk))
  }

  /** n rounds of Write's loop with nothing in between. */
  ghost function WriteRounds(w: World, side: Side, id: u32, n: nat): World
    decreases n
  {
    if n == 0 then w else WriteRounds(StepWriteChunk(w, side, id), side, id, n - 1)
  }

  /** The world once the bytes p of a Write have gone out in frames. */
  ghost function Written(w: World, side: Side, id: u32, p: seq<byte>): World
    requires HasReady(w, side, id)
  {
    var done := WithRec(w, side, id, EndOf(w, side).streams[id].(pending := []));
    WithWire(done, Other(side), Wire(w, Other(side)) + DataFrames(id, Chunks(p)))
  }

  /** One round takes one of the frames that make up the whole. */
  lemma WriteRound(w: World, side: Side, id: u32, p: seq<byte>)
    requires HasReady(w, side, id) && !EndOf(w, side).broken && EndOf(w, side).streams[id].pending == p != []
    ensures var next := StepWriteChunk(w, side, id);
            && HasReady(next, side, id) && !EndOf(next, side).broken
            && EndOf(next, side).streams[id].pending == p[|Chunk(p)|..]
            && Chunks(p) == [Chunk(p)] + Chunks(p[|Chunk(p)|..])
            && Written(next, side, id, p[|Chunk(p)|..]) == Written(w, side, id, p)
  {
    var r := EndOf(w, side).streams[id];
    var rest := p[|Chunk(p)|..];
    var next := StepWriteChunk(w, side, id);
    assert Chunks(p) == [Chunk(p)] + Chunks(rest);
    hide Chunks, Chunk;
    var data := MuxFrame(DATA, id, Chunk(p));
    assert DataFrames(id, Chunks(p)) == [data] + DataFrames(id, Chunks(rest));
    assert EndOf(next, side).streams[id := r.(pending := [])] == EndOf(w, side).streams[id := r.(pending := [])];
    var wire := Wire(w, Other(side));
    assert wire + DataFrames(id, Chunks(p)) == wire + [data] + DataFrames(id, Chunks(rest));
  }

  /** Left to itself, Write puts out all its bytes, in exactly the frames `StreamObject.Write` cuts them into. */
  lemma {:induction false} WriteGoesOut(w: World, side: Side, id: u32, p: seq<byte>)
    requires HasReady(w, side, id) && !EndOf(w, side).broken && EndOf(w, side).streams[id].pending == p
    ensures WriteRounds(w, side, id, |Chunks(p)|) == Written(w, side, id, p)
    decreases |p|
  {
    if p == [] {
      var wire := Wire(w, Other(side));
      assert wire + DataFrames(id, Chunks(p)) == wire;
      assert EndOf(w, side).streams[id := EndOf(w, side).streams[id]] == EndOf(w, side).streams;
    } else {
      hide Written, StepWriteChunk, EndOf, HasReady;
      WriteRound(w, side, id, p);
      WriteGoesOut(StepWriteChunk(w, side, id), side, id, p[|Chunk(p)|..]);
    }
  }

  function StepCloseBegin(w: World, side: Side, id: u32): World {
    if !HasReady(w, side, id) then w else
    var r := EndOf(w, side).streams[id];
    if r.s.localDone then w else WithRec(w, side, id, r.(s := r.s.(localDone := true), closing := Marked))
  }

  /** The CLOSE frame, written by the first Close only, whether or not a Write is under way. */
  function StepCloseSend(w: World, side: Side, id: u32): World {
    if !HasReady(w, side, id) || EndOf(w, side).streams[id].closing != Marked then w else
    var r := EndOf(w, side).streams[id];
    if EndOf(w, side).broken then WithRec(w, side, id, r.(closing := Lost))
    else Send(WithRec(w, side, id, r.(closing := CloseSent(Sent(r)))), side, MuxFrame(CLOSE, id, []))
  }

  /** The RST frame of reset; its check of resetErr may be stale by now. */
  function StepSendReset(w: World, side: Side, id: u32): World {
    if !HasReady(w, side, id) || EndOf(w, side).broken then w else Send(w, side, MuxFrame(RST, id, []))
  }

  /** shutdown: by reset, by RST, by a failed write or by closeAll. */
  function StepShut(w: World, side: Side, id: u32, cause: StreamError): World {
    if !Has(w, side, id) then w else
    var r := EndOf(w, side).streams[id];
    WithRec(w, side, id, r.(s := Shutdown(r.s, cause)))
  }

  /** removeStream, by shutdown or by reapIfDone. */
  function StepRemove(w: World, side: Side, id: u32): World {
    if !Has(w, side, id) then w else
    var r := EndOf(w, side).streams[id];
    if MuxStreams.Shut(r.s) || Done(r.s) then Unlist(w, side, id) else w
  }

  function Delivered(r: Rec, p: seq<byte>, drop: bool): Rec
    requires CanDeliver(r.s, p)
  {
    r.(s := Deliver(r.s, p, drop), arrived := r.arrived + p, dropped := r.dropped || Drops(r.s, p, drop))
  }

  function PeerClosed(r: Rec, drop: bool): Rec {
    r.(s := RemoteClose(r.s, drop), atClose := Some(Mark(r.arrived, Have(r), r.dropped)))
  }

  /** dispatch of the next frame; it waits while the stream's queue is full. */
  function StepReceive(w: World, side: Side, drop: bool): World {
    if Wire(w, side) == [] then w else
    var f := Wire(w, side)[0];
    var e := EndOf(w, side);
    var next := WithWire(w, side, Wire(w, side)[1..]);
    if f.typ == OPEN then
      if side == Server || e.closed then next
      else WithEnd(next, side, e.(streams := e.streams[f.id := NEW_REC], table := e.table + {f.id}))
    else if f.id !in e.table || f.id !in e.streams then next
    else
      var r := e.streams[f.id];
      if f.typ == DATA then
        if CanDeliver(r.s, f.payload) then WithRec(next, side, f.id, Delivered(r, f.payload, drop)) else w
      else if f.typ == CLOSE then WithRec(next, side, f.id, PeerClosed(r, drop))
      else if f.typ == RST then WithRec(next, side, f.id, r.(s := Shutdown(r.s, StreamReset)))
      else next
  }

  /** The record after a section of Read. */
  function AfterRead(r: Rec, o: (Stream, Reader, ReadResult)): Rec {
    r.(s := o.0, reader := o.1, got := r.got + ReadBytes(o.2))
  }

  function StepBeginRead(w: World, side: Side, id: u32, n: nat): World {
    if !HasReady(w, side, id) || EndOf(w, side).streams[id].reader != Idle then w else
    var r := EndOf(w, side).streams[id];
    WithRec(w, side, id, AfterRead(r, ReadStart(r.s, n)))
  }

  function StepSelectRead(w: World, side: Side, id: u32, done: bool): World {
    if !HasReady(w, side, id) || !EndOf(w, side).streams[id].reader.Waiting? then w else
    var r := EndOf(w, side).streams[id];
    WithRec(w, side, id, AfterRead(r, ReadRound(r.s, r.reader.n, done)))
  }

  function StepCheckEnd(w: World, side: Side, id: u32): World {
    if !HasReady(w, side, id) || !EndOf(w, side).streams[id].reader.Checking? then w else
    var r := EndOf(w, side).streams[id];
    WithRec(w, side, id, AfterRead(r, ReadEnd(r.s, r.reader.n)))
  }

  /** The locked part of closeAll; its victims are shut one by one afterwards. */
  function StepMuxClose(w: World, side: Side): World {
    WithEnd(w, side, EndOf(w, side).(closed := true, table := {}))
  }

  function Step(w: World, ev: Event): World {
    match ev
    case OpenBegin => StepOpenBegin(w)
    case OpenSend(id, dst) => StepOpenSend(w, id, dst)
    case BeginWrite(side, id, p) => StepBeginWrite(w, side, id, p)
    case WriteChunk(side, id) => StepWriteChunk(w, side, id)
    case CloseBegin(side, id) => StepCloseBegin(w, side, id)
    case CloseSend(side, id) => StepCloseSend(w, side, id)
    case SendReset(side, id) => StepSendReset(w, side, id)
    case Shut(side, id, cause) => StepShut(w, side, id, cause)
    case Remove(side, id) => StepRemove(w, side, id)
    case Receive(side, drop) => StepReceive(w, side, drop)
    case BeginRead(side, id, n) => StepBeginRead(w, side, id, n)
    case SelectRead(side, id, done) => StepSelectRead(w, side, id, done)
    case CheckEnd(side, id) => StepCheckEnd(w, side, id)
    case MuxClose(side) => StepMuxClose(w, side)
    case Break(side) => WithEnd(w, side, EndOf(w, side).(broken := true))
  }

  function Run(w: World, es: seq<Event>): World
    decreases |es|
  {
    if es == [] then w else Run(Step(w, es[0]), es[1..])
  }

  /** Nothing changes but this stream, its listing, and the wire that is not mentioned here. */
  ghost predicate OnlyStream(w: World, v: World, side: Side, id: u32) {
    && EndOf(v, Other(side)) == EndOf(w, Other(side))
    && Has(v, side, id) && EndOf(v, side).streams - {id} == EndOf(w, side).streams - {id}
  }

  lemma OnlyStreamTwice(w: World, u: World, v: World, side: Side, id: u32)
    requires OnlyStream(w, u, side, id) && OnlyStream(u, v, side, id)
    ensures OnlyStream(w, v, side, id)
  {
  }

  /** removeStream: the stream is unlisted once it is shut or closed by both ends, and stays as it is. */
  lemma RemoveUnlists(w: World, side: Side, id: u32)
    requires Has(w, side, id)
    ensures var s := EndOf(w, side).streams[id].s;
            var v := Step(w, Remove(side, id));
            && OnlyStream(w, v, side, id)
            && Wire(v, Server) == Wire(w, Server) && Wire(v, Connector) == Wire(w, Connector)
            && EndOf(v, side).streams == EndOf(w, side).streams
            && EndOf(v, side).table
               == EndOf(w, side).table - (if s.resetErr.Some? || (s.localDone && s.remoteEOF) then {id} else {})
  {
    assert EndOf(w, side).table - {} == EndOf(w, side).table;
  }

  /**
   * What MuxTable.MuxConn.OpenStream does at one go: OPEN goes out under the next id and the stream is listed, or it
   * is dropped again.
   */
  lemma OpenIsSteps(w: World, dst: seq<byte>)
    requires !w.srv.closed && w.srv.nextID < MAX_ID
    ensures var id := w.srv.nextID + 1;
            var v := Step(Step(w, OpenBegin), OpenSend(id, dst));
            && v.srv.nextID == id && OnlyStream(w, v, Server, id) && v.toSrv == w.toSrv
            && v.srv.streams[id].s == NEW_STREAM
            && (if |dst| <= 65536 && !w.srv.broken
                then v.toCon == w.toCon + [MuxFrame(OPEN, id, dst)] && v.srv.table == w.srv.table + {id}
                else v.toCon == w.toCon && v.srv.table == w.srv.table - {id})
  {
    var id := w.srv.nextID + 1;
    assert w.srv.table + {id} - {id} == w.srv.table - {id};
  }

  /** The CLOSE frame of a stream closed for the first time. */
  lemma CloseGoesOut(w: World, side: Side, id: u32)
    requires HasReady(w, side, id) && !EndOf(w, side).broken && !EndOf(w, side).streams[id].s.localDone
    ensures var r := EndOf(w, side).streams[id];
            var v := Step(Step(w, CloseBegin(side, id)), CloseSend(side, id));
            && OnlyStream(w, v, side, id)
            && Wire(v, Other(side)) == Wire(w, Other(side)) + [MuxFrame(CLOSE, id, [])]
            && Wire(v, side) == Wire(w, side)
            && EndOf(v, side).streams[id].s == r.s.(localDone := true)
            && EndOf(v, side).table == EndOf(w, side).table
  {
  }

  /** MuxConn.CloseStream: CLOSE goes out after all that was written; the stream is unlisted once both ends closed. */
  lemma CloseIsSteps(w: World, side: Side, id: u32)
    requires HasReady(w, side, id) && !EndOf(w, side).broken
    requires var s := EndOf(w, side).streams[id].s; !s.localDone && s.resetErr.None?
    ensures var s := EndOf(w, side).streams[id].s;
            var v := Step(Step(Step(w, CloseBegin(side, id)), CloseSend(side, id)), Remove(side, id));
            && OnlyStream(w, v, side, id)
            && Wire(v, Other(side)) == Wire(w, Other(side)) + [MuxFrame(CLOSE, id, [])]
            && Wire(v, side) == Wire(w, side)
            && EndOf(v, side).streams[id].s == s.(localDone := true)
            && EndOf(v, side).table == EndOf(w, side).table - (if s.remoteEOF then {id} else {})
  {
    CloseGoesOut(w, side, id);
    var u := Step(Step(w, CloseBegin(side, id)), CloseSend(side, id));
    hide Step, OnlyStream, EndOf, Wire;
    assert Has(u, side, id) by { OnlyHas(w, u, side, id); }
    RemoveUnlists(u, side, id);
    OnlyStreamTwice(w, u, Step(u, Remove(side, id)), side, id);
  }

  lemma OnlyHas(w: World, v: World, side: Side, id: u32)
    requires OnlyStream(w, v, side, id)
    ensures Has(v, side, id)
  {
  }

  /** MuxConn.ResetStream: RST goes out, the stream is shut and unlisted. */
  lemma ResetIsSteps(w: World, side: Side, id: u32)
    requires HasReady(w, side, id) && !EndOf(w, side).broken && EndOf(w, side).streams[id].s.resetErr.None?
    ensures var s := EndOf(w, side).streams[id].s;
            var v := Step(Step(Step(w, SendReset(side, id)), Event.Shut(side, id, StreamReset)), Remove(side, id));
            && OnlyStream(w, v, side, id)
            && Wire(v, Other(side)) == Wire(w, Other(side)) + [MuxFrame(RST, id, [])] && Wire(v, side) == Wire(w, side)
            && EndOf(v, side).streams[id].s == s.(resetErr := Some(StreamReset))
            && EndOf(v, side).table == EndOf(w, side).table - {id}
  {
  }

  /** What the next frame does to the listed stream of its id. */
  lemma FrameActs(w: World, side: Side, f: MuxFrame, rest: seq<MuxFrame>, drop: bool)
    requires Wire(w, side) == [f] + rest && f.typ in {DATA, CLOSE, RST}
    requires Has(w, side, f.id) && f.id in EndOf(w, side).table
    requires var s := EndOf(w, side).streams[f.id].s;
             s.resetErr.None? && (f.typ == DATA ==> CanDeliver(s, f.payload))
    ensures var s := EndOf(w, side).streams[f.id].s;
            var v := Step(w, Receive(side, drop));
            && OnlyStream(w, v, side, f.id) && Wire(v, side) == rest && Wire(v, Other(side)) == Wire(w, Other(side))
            && EndOf(v, side).streams[f.id].s == (if f.typ == DATA then Deliver(s, f.payload, drop)
                                                  else if f.typ == CLOSE then RemoteClose(s, drop)
                                                  else s.(resetErr := Some(StreamReset)))
            && EndOf(v, side).table == EndOf(w, side).table
  {
    hide Deliver, RemoteClose, CanDeliver, Drops;
    assert ([f] + rest)[1..] == rest;
  }

  /** MuxConn.Dispatch of a frame to a listed stream; after CLOSE and RST the stream may leave the table. */
  lemma DispatchIsSteps(w: World, side: Side, f: MuxFrame, rest: seq<MuxFrame>, drop: bool)
    requires Wire(w, side) == [f] + rest && f.typ in {CLOSE, RST}
    requires Has(w, side, f.id) && f.id in EndOf(w, side).table && EndOf(w, side).streams[f.id].s.resetErr.None?
    ensures var s := EndOf(w, side).streams[f.id].s;
            var v := Step(Step(w, Receive(side, drop)), Remove(side, f.id));
            && OnlyStream(w, v, side, f.id) && Wire(v, side) == rest && Wire(v, Other(side)) == Wire(w, Other(side))
            && EndOf(v, side).streams[f.id].s == (if f.typ == CLOSE then RemoteClose(s, drop)
                                                  else s.(resetErr := Some(StreamReset)))
            && EndOf(v, side).table
               == EndOf(w, side).table - (if f.typ == RST || s.localDone then {f.id} else {})
  {
    var s := EndOf(w, side).streams[f.id].s;
    RemoteCloseEnds(s, drop);
    FrameActs(w, side, f, rest, drop);
    var u := Step(w, Receive(side, drop));
    hide Step, OnlyStream, EndOf, Wire, RemoteClose;
    assert Has(u, side, f.id) by { OnlyHas(w, u, side, f.id); }
    RemoveUnlists(u, side, f.id);
    OnlyStreamTwice(w, u, Step(u, Remove(side, f.id)), side, f.id);
  }

  /** MuxConn.Dispatch of OPEN on the accepting side. */
  lemma OpenArrives(w: World, f: MuxFrame, rest: seq<MuxFrame>, drop: bool)
    requires w.toCon == [f] + rest && f.typ == OPEN && !w.con.closed
    ensures var v := Step(w, Receive(Connector, drop));
            && v.toCon == rest && v.toSrv == w.toSrv && v.srv == w.srv
            && v.con == w.con.(streams := w.con.streams[f.id := NEW_REC], table := w.con.table + {f.id})
  {
    assert ([f] + rest)[1..] == rest;
  }
}
