/** The stream table of one end of the multiplexer (muxConn in internal/revtunnel/stream.go). */
module MuxTable {
  import opened Bytes
  import opened MuxFrames
  import opened MuxStreams

  class MuxConn {
    const conn: Conn
    const server: bool
    var streams: map<u32, StreamObject>
    var nextID: u32
    var closed: bool

    ghost predicate Valid()
      reads this
    {
      && (forall id <- streams :: streams[id].id == id && streams[id].conn == conn)
      && (closed ==> streams == map[])
    }

    /** Every listed id has been given out already, so a new id is unused. */
    ghost predicate IdsAllocated()
      reads this
    {
      forall id <- streams :: id <= nextID
    }

    constructor (conn: Conn, server: bool)
      ensures Valid() && IdsAllocated() && streams == map[] && !closed && this.conn == conn && this.server == server
    {
      this.conn, this.server := conn, server;
      streams, nextID, closed := map[], 0, false;
    }

    /** openStream: a fresh stream under the next id, modulo 2^32, with its OPEN on the wire; or no stream. */
    method OpenStream(dst: seq<byte>) returns (s: StreamObject?)
      requires Valid()
      modifies this`streams, this`nextID, conn
      ensures Valid()
      ensures nextID == if closed then old(nextID) else (old(nextID) + 1) % 0x1_0000_0000
      ensures var open := MuxFrame(OPEN, nextID, dst);
        && (s != null <==> !closed && Fits(open) && Takes(old(conn.room), |Encode(open)|))
        && conn.wire == old(conn.wire) + if closed || !Fits(open) then [] else Cut(Encode(open), old(conn.room))
      ensures s == null ==> streams == if closed then old(streams) else old(streams) - {nextID}
      ensures s != null ==> fresh(s) && s.Abs() == NEW_STREAM && s.id == nextID && streams == old(streams)[s.id := s]
      // As long as the ids have not wrapped, the id was unused.
      ensures old(IdsAllocated()) && old(nextID) < 0xFFFF_FFFF ==>
                IdsAllocated() && (!closed ==> nextID !in old(streams)) && (s == null ==> streams == old(streams))
    {
      hide Cut, Takes, Encode;
      if closed {
        return null;
      }
      nextID := (nextID + 1) % 0x1_0000_0000;
      var id := nextID;
      s := new StreamObject(conn, id);
      streams := streams[id := s];
      var ok := conn.WriteFrame(OPEN, id, dst);
      if !ok {
        RemoveStream(id);
        s := null;
        assert id !in old(streams) ==> old(streams) - {id} == old(streams);
      }
    }

    /** Write of a stream; shutdown takes a stream whose frame failed out of the table. */
    method WriteStream(s: StreamObject, p: seq<byte>) returns (n: nat, err: Option<StreamError>)
      requires Valid() && s.conn == conn
      modifies this`streams, s`resetErr, conn
      ensures Valid()
      ensures if old(s.resetErr).Some? then n == 0 && err == old(s.resetErr) && conn.wire == old(conn.wire)
              else if s.localDone then n == 0 && err == Some(StreamClosed) && conn.wire == old(conn.wire)
              else
                && conn.wire == old(conn.wire) + Cut(Frames(s.id, p), old(conn.room))
                && n == PayloadBytes(Decode(Cut(Frames(s.id, p), old(conn.room))))
                && err == if Takes(old(conn.room), |Frames(s.id, p)|) then None else Some(ConnFailed)
      ensures s.Abs() == if err == Some(ConnFailed) && old(s.resetErr).None? && !s.localDone
                         then Shutdown(old(s.Abs()), MuxClosed) else old(s.Abs())
      ensures streams == if old(s.resetErr).None? && err == Some(ConnFailed) then old(streams) - {s.id}
                         else old(streams)
    {
      hide Frames, Takes, Cut, Decode, PayloadBytes, Shutdown;
      var live := s.resetErr.None?;
      n, err := s.Write(p);
      if live && err == Some(ConnFailed) {
        RemoveStream(s.id);
      }
    }

    method RemoveStream(id: u32)
      requires Valid()
      modifies this`streams
      ensures Valid() && streams == old(streams) - {id}
    {
      streams := streams - {id};
    }

    /** dispatch: OPEN makes a stream on the accepting side; every other frame acts on the listed stream of its id. */
    method Dispatch(f: MuxFrame, drop: bool)
      requires Valid()
      requires f.typ == DATA && f.id in streams ==> CanDeliver(streams[f.id].Abs(), f.payload)
      modifies this`streams, if f.id in streams then {streams[f.id]} else {}
      ensures Valid()
      ensures f.typ == OPEN && !server && !closed ==>
                f.id in streams && fresh(streams[f.id]) && streams[f.id].Abs() == NEW_STREAM
                && streams == old(streams)[f.id := streams[f.id]]
      ensures f.typ == OPEN && (server || closed) ==> streams == old(streams)
      ensures f.typ == OPEN && f.id in old(streams) ==> old(streams)[f.id].Abs() == old(streams[f.id].Abs())
      ensures f.typ != OPEN && f.id !in old(streams) ==> streams == old(streams)
      ensures f.typ == DATA && f.id in old(streams) ==>
                streams == old(streams) && streams[f.id].Abs() == Deliver(old(streams[f.id].Abs()), f.payload, drop)
      ensures f.typ == CLOSE && f.id in old(streams) ==>
                var s := old(streams)[f.id];
                s.Abs() == RemoteClose(old(streams[f.id].Abs()), drop)
                && streams == if s.localDone then old(streams) - {f.id} else old(streams)
      ensures f.typ == RST && f.id in old(streams) ==>
                old(streams)[f.id].Abs() == Shutdown(old(streams[f.id].Abs()), StreamReset)
                && streams == old(streams) - {f.id}
      ensures f.typ !in {OPEN, DATA, CLOSE, RST} ==> streams == old(streams)
      ensures f.typ !in {OPEN, DATA, CLOSE, RST} && f.id in streams ==>
                streams[f.id].Abs() == old(streams[f.id].Abs())
    {
      hide Deliver, RemoteClose, Shutdown, CanDeliver;
      if f.typ == OPEN {
        if server || closed {
          return;
        }
        var s := new StreamObject(conn, f.id);
        streams := streams[f.id := s];
      } else if f.id in streams {
        var s := streams[f.id];
        if f.typ == DATA {
          s.DeliverChunk(f.payload, drop);
        } else if f.typ == CLOSE {
          RemoteCloseEnds(s.Abs(), drop);
          var done := s.OnRemoteClose(drop);
          if done {
            RemoveStream(f.id);
          }
        } else if f.typ == RST {
          s.OnShutdown(StreamReset);
          RemoveStream(f.id);
        }
      }
    }

    /** Close of a stream: one CLOSE frame however often it is called; once both ends closed the stream is unlisted. */
    method CloseStream(s: StreamObject)
      requires Valid() && s.conn == conn
      modifies this`streams, s`localDone, conn
      ensures Valid()
      ensures s.Abs() == old(s.Abs()).(localDone := true)
      ensures conn.wire == old(conn.wire)
                           + if old(s.localDone) then [] else Cut(Encode(MuxFrame(CLOSE, s.id, [])), old(conn.room))
      ensures streams == if s.remoteEOF then old(streams) - {s.id} else old(streams)
    {
      var already := s.localDone;
      s.localDone := true;
      if !already {
        var _ := conn.WriteFrame(CLOSE, s.id, []);
      }
      if s.localDone && s.remoteEOF {
        RemoveStream(s.id);
      }
    }

    /** reset of a stream: one RST frame unless it is shut already. */
    method ResetStream(s: StreamObject)
      requires Valid() && s.conn == conn
      modifies this`streams, s`resetErr, conn
      ensures Valid()
      ensures s.Abs() == Shutdown(old(s.Abs()), StreamReset)
      ensures conn.wire == old(conn.wire)
                           + if old(s.resetErr).Some? then [] else Cut(Encode(MuxFrame(RST, s.id, [])), old(conn.room))
      ensures streams == if old(s.resetErr.Some?) then old(streams) else old(streams) - {s.id}
    {
      if s.resetErr.None? {
        var _ := conn.WriteFrame(RST, s.id, []);
        s.OnShutdown(StreamReset);
        RemoveStream(s.id);
      }
    }

    /** closeAll: every listed stream is shut with the cause, once. */
    method CloseAll(cause: StreamError)
      requires Valid()
      modifies this`streams, this`closed, streams.Values
      ensures Valid() && closed && streams == map[]
      ensures forall id <- old(streams) :: old(streams)[id].Abs() == Shutdown(old(streams[id].Abs()), cause)
    {
      if closed {
        return;
      }
      closed := true;
      var victims := streams;
      streams := map[];
      var left := victims.Keys;
      while left != {}
        invariant left <= victims.Keys && streams == map[] && closed
        invariant forall id <- victims :: victims[id].id == id
        invariant forall id <- victims ::
                    victims[id].Abs() == if id in left then old(victims[id].Abs())
                                         else Shutdown(old(victims[id].Abs()), cause)
        decreases left
      {
        var id :| id in left;
        victims[id].OnShutdown(cause);
        left := left - {id};
      }
    }
  }
}
