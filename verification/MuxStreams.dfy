/** One logical stream of internal/revtunnel/stream.go: bounded queue, partial reads, half-close and reset. */
module MuxStreams {
  import opened Bytes
  import opened MuxFrames

  const STREAM_READ_BUF: nat := 64

  /** ConnFailed stands for the error of the connection's own Write. */
  datatype StreamError = MuxClosed | StreamReset | StreamClosed | ConnFailed

  /** What a stream object holds; a None in the queue is the sentinel that follows the peer's CLOSE. */
  datatype Stream = Stream(queue: seq<Option<seq<byte>>>, readBuf: seq<byte>, remoteEOF: bool,
                           resetErr: Option<StreamError>, localDone: bool)

  const NEW_STREAM := Stream([], [], false, None, false)

  /** doneCh is closed exactly when an error has been set. */
  predicate Shut(s: Stream) {
    s.resetErr.Some?
  }

  /** Whether deliver can go ahead: room in the queue, or nobody will read any more. */
  predicate CanDeliver(s: Stream, p: seq<byte>) {
    p == [] || |s.queue| < STREAM_READ_BUF || Shut(s)
  }

  /** A stream that is shut may drop the chunk, and a full one of these does. */
  predicate Drops(s: Stream, p: seq<byte>, drop: bool) {
    p != [] && Shut(s) && (drop || |s.queue| >= STREAM_READ_BUF)
  }

  function Deliver(s: Stream, p: seq<byte>, drop: bool): Stream
    requires CanDeliver(s, p)
  {
    if p == [] || Drops(s, p, drop) then s else s.(queue := s.queue + [Some(p)])
  }

  /** remoteClose: the sentinel is left out when the queue is full. */
  function RemoteClose(s: Stream, drop: bool): Stream {
    var s' := s.(remoteEOF := true);
    if |s.queue| < STREAM_READ_BUF && !(Shut(s) && drop) then s'.(queue := s.queue + [None]) else s'
  }

  function Shutdown(s: Stream, cause: StreamError): Stream {
    if Shut(s) then s else s.(resetErr := Some(cause))
  }

  predicate Done(s: Stream) {
    s.localDone && s.remoteEOF
  }

  /** A stream that is not shut queues 64 chunks before deliver blocks; its own and the peer's end are both needed. */
  lemma QueueMeaning(s: Stream, p: seq<byte>, drop: bool)
    requires !Shut(s)
    ensures CanDeliver(s, p) <==> p == [] || |s.queue| < 64
    ensures p != [] && |s.queue| < 64 ==> Deliver(s, p, drop) == s.(queue := s.queue + [Some(p)])
    ensures RemoteClose(s, drop).queue == s.queue + if |s.queue| < 64 then [None] else []
    ensures RemoteClose(s, drop).remoteEOF && (Done(s) <==> s.localDone && s.remoteEOF)
  {
  }

  lemma RemoteCloseEnds(s: Stream, drop: bool)
    ensures RemoteClose(s, drop).remoteEOF && RemoteClose(s, drop).localDone == s.localDone
  {
  }

  /** The first cause of a shutdown stays, and nothing else about the stream changes. */
  lemma FirstCauseStays(s: Stream, cause: StreamError, later: StreamError)
    ensures Shut(Shutdown(s, cause)) && Shutdown(Shutdown(s, cause), later) == Shutdown(s, cause)
    ensures !Shut(s) ==> Shutdown(s, cause) == s.(resetErr := Some(cause))
    ensures Shut(s) ==> Shutdown(s, cause) == s
  {
  }

  /** Pending: Read has not returned yet. */
  datatype ReadResult = Got(bytes: seq<byte>) | Eof | Failed(error: StreamError) | Pending

  /** Where the stream's reader is: outside Read, before a select of its loop, or with the sentinel in its hand. */
  datatype Reader = Idle | Waiting(n: nat) | Checking(n: nat)

  function Min(a: nat, b: nat): nat {
    if a < b then a else b
  }

  /** The first lock section of Read into a buffer of n bytes. */
  function ReadStart(s: Stream, n: nat): (Stream, Reader, ReadResult) {
    if s.readBuf != [] then
      var k := Min(n, |s.readBuf|);
      (s.(readBuf := s.readBuf[k..]), Idle, Got(s.readBuf[..k]))
    else if Shut(s) then (s, Idle, Failed(s.resetErr.value))
    else (s, Waiting(n), Pending)
  }

  /** One select of Read's loop; once the stream is shut, `done` chooses between the closed doneCh and the queue. */
  function ReadRound(s: Stream, n: nat, done: bool): (Stream, Reader, ReadResult) {
    if Shut(s) && (done || s.queue == []) then (s, Idle, Failed(s.resetErr.value))
    else if s.queue == [] then (s, Waiting(n), Pending)
    else
      var s' := s.(queue := s.queue[1..]);
      match s.queue[0]
      case None => (s', Checking(n), Pending)
      case Some(chunk) =>
        var k := Min(n, |chunk|);
        (if k < |chunk| then s'.(readBuf := chunk[k..]) else s', Idle, Got(chunk[..k]))
  }

  /** The lock section after a sentinel. */
  function ReadEnd(s: Stream, n: nat): (Stream, Reader, ReadResult) {
    if s.remoteEOF && s.queue == [] then (s, Idle, Eof) else (s, Waiting(n), Pending)
  }

  function ReadBytes(r: ReadResult): seq<byte> {
    if r.Got? then r.bytes else []
  }

  /** The bytes waiting in the queue. */
  function Queued(q: seq<Option<seq<byte>>>): seq<byte> {
    if q == [] then [] else (if q[0].None? then [] else q[0].value) + Queued(q[1..])
  }

  /** Received and not yet read. */
  function Unread(s: Stream): seq<byte> {
    s.readBuf + Queued(s.queue)
  }

  lemma NothingQueued()
    ensures Queued([]) == []
  {
  }

  lemma {:induction false} QueuedAppend(q: seq<Option<seq<byte>>>, c: Option<seq<byte>>)
    ensures Queued(q + [c]) == Queued(q) + if c.None? then [] else c.value
  {
    if q == [] {
      assert q + [c] == [c];
    } else {
      assert (q + [c])[1..] == q[1..] + [c];
      QueuedAppend(q[1..], c);
    }
  }

  /** A delivered chunk waits behind everything received before it, unless it is dropped. */
  lemma DeliverUnread(s: Stream, p: seq<byte>, drop: bool)
    requires CanDeliver(s, p)
    ensures Unread(Deliver(s, p, drop)) == Unread(s) + if Drops(s, p, drop) then [] else p
  {
    if p != [] && !Drops(s, p, drop) {
      QueuedAppend(s.queue, Some(p));
    }
  }

  lemma RemoteCloseUnread(s: Stream, drop: bool)
    ensures Unread(RemoteClose(s, drop)) == Unread(s)
  {
    QueuedAppend(s.queue, None);
  }

  /** deliver queues no empty chunk, so that every chunk in the queue has something to read. */
  ghost predicate NoEmpty(q: seq<Option<seq<byte>>>) {
    forall i :: 0 <= i < |q| ==> q[i] != Some([])
  }

  lemma DeliverNoEmpty(s: Stream, p: seq<byte>, drop: bool)
    requires CanDeliver(s, p) && NoEmpty(s.queue)
    ensures NoEmpty(Deliver(s, p, drop).queue)
  {
  }

  lemma RemoteCloseNoEmpty(s: Stream, drop: bool)
    requires NoEmpty(s.queue)
    ensures NoEmpty(RemoteClose(s, drop).queue)
  {
  }

  /** A section of Read that returns bytes fills the buffer or uses up the chunk, so it returns at least one byte. */
  lemma ReadsSome(s: Stream, n: nat, done: bool)
    requires NoEmpty(s.queue) && n > 0
    ensures ReadStart(s, n).2.Got? ==> 0 < |ReadStart(s, n).2.bytes| <= n
    ensures ReadRound(s, n, done).2.Got? ==> 0 < |ReadRound(s, n, done).2.bytes| <= n
    ensures ReadStart(s, n).2.Got? && ReadStart(s, n).0.readBuf != [] ==> |ReadStart(s, n).2.bytes| == n
    ensures ReadRound(s, n, done).2.Got? && s.readBuf == [] && ReadRound(s, n, done).0.readBuf != [] ==>
              |ReadRound(s, n, done).2.bytes| == n
  {
  }

  /** What a section of Read does: bytes come off the front, none is lost, and nothing else changes. */
  ghost predicate ReadsFront(s: Stream, o: (Stream, Reader, ReadResult)) {
    && Unread(s) == ReadBytes(o.2) + Unread(o.0)
    && o.0.remoteEOF == s.remoteEOF && o.0.resetErr == s.resetErr && o.0.localDone == s.localDone
    && (o.1 == Idle <==> o.2 != Pending)
    && (o.1 != Idle ==> o.0.readBuf == [])
    && (NoEmpty(s.queue) ==> NoEmpty(o.0.queue))
  }

  lemma ReadStartUnread(s: Stream, n: nat)
    ensures ReadsFront(s, ReadStart(s, n))
  {
    if s.readBuf != [] {
      var k := Min(n, |s.readBuf|);
      assert s.readBuf == s.readBuf[..k] + s.readBuf[k..];
    }
  }

  lemma ReadRoundUnread(s: Stream, n: nat, done: bool)
    requires s.readBuf == []
    ensures ReadsFront(s, ReadRound(s, n, done))
  {
    if s.queue != [] && s.queue[0].Some? {
      var chunk, k := s.queue[0].value, Min(n, |s.queue[0].value|);
      assert chunk == chunk[..k] + chunk[k..];
    }
  }

  /** The end is reported only with nothing left to read. */
  lemma ReadEndUnread(s: Stream, n: nat)
    requires s.readBuf == []
    ensures ReadsFront(s, ReadEnd(s, n))
    ensures ReadEnd(s, n).2 == Eof ==> Unread(s) == [] && s.remoteEOF
  {
  }

  /** The rounds of an uninterrupted Read, until it returns or has to wait. */
  function ReadRounds(s: Stream, n: nat): (Stream, ReadResult)
    decreases |s.queue|
  {
    var (s1, reader, r) := ReadRound(s, n, false);
    if !reader.Checking? then (s1, r) else
    var (s2, reader', r') := ReadEnd(s1, n);
    if reader'.Waiting? then ReadRounds(s2, n) else (s2, r')
  }

  function ReadAll(s: Stream, n: nat): (Stream, ReadResult) {
    var (s1, reader, r) := ReadStart(s, n);
    if reader.Waiting? then ReadRounds(s1, n) else (s1, r)
  }

  /**
   * An uninterrupted Read loses no byte, fails exactly on a stream that was shut with nothing left over, reports the
   * end only when the peer has closed and every byte has been read, and waits only with nothing left to take. When it
   * has room and there is something to read on a stream that is not shut, it returns at least one byte.
   */
  ghost predicate ReadOutcome(s: Stream, n: nat, s': Stream, r: ReadResult) {
    && Unread(s) == ReadBytes(r) + Unread(s')
    && (r.Got? ==> |r.bytes| <= n)
    && (r.Failed? <==> s.readBuf == [] && s.resetErr.Some?)
    && (r.Failed? ==> Some(r.error) == s.resetErr && s' == s)
    && (r == Eof ==> s.remoteEOF && Unread(s) == [])
    && (r == Pending ==> Unread(s) == [] && s'.queue == [] && s'.readBuf == [])
    && (n > 0 && NoEmpty(s.queue) && (r.Got? || (Unread(s) != [] && s.resetErr.None?)) ==> r.Got? && |r.bytes| > 0)
    && (NoEmpty(s.queue) ==> NoEmpty(s'.queue))
  }

  /** Only a sentinel has been taken off the queue. */
  ghost predicate Skipped(s: Stream, s': Stream) {
    && Unread(s') == Unread(s) && s'.readBuf == s.readBuf == []
    && s'.resetErr == s.resetErr && s'.remoteEOF == s.remoteEOF && (NoEmpty(s.queue) ==> NoEmpty(s'.queue))
  }

  lemma RoundOutcome(s: Stream, n: nat)
    requires s.readBuf == [] && s.resetErr.None?
    ensures var (s', reader, r) := ReadRound(s, n, false);
      if reader.Checking? then Skipped(s, s') else ReadOutcome(s, n, s', r)
  {
    ReadRoundUnread(s, n, false);
    NothingQueued();
  }

  lemma EndOutcome(s: Stream, n: nat)
    requires s.readBuf == [] && s.resetErr.None?
    ensures ReadEnd(s, n).1 == Idle ==> ReadOutcome(s, n, ReadEnd(s, n).0, ReadEnd(s, n).2)
  {
    ReadEndUnread(s, n);
  }

  lemma OutcomeBefore(s: Stream, s1: Stream, n: nat, s': Stream, r: ReadResult)
    requires Skipped(s, s1) && s.resetErr.None? && ReadOutcome(s1, n, s', r)
    ensures ReadOutcome(s, n, s', r)
  {
    hide Unread, NoEmpty;
  }

  lemma {:induction false} ReadRoundsMeaning(s: Stream, n: nat)
    requires s.readBuf == [] && s.resetErr.None?
    ensures ReadOutcome(s, n, ReadRounds(s, n).0, ReadRounds(s, n).1)
    decreases |s.queue|
  {
    hide Unread, ReadOutcome, NoEmpty;
    RoundOutcome(s, n);
    var (s1, reader, r) := ReadRound(s, n, false);
    if reader.Checking? {
      EndOutcome(s1, n);
      if ReadEnd(s1, n).1.Waiting? {
        ReadRoundsMeaning(s1, n);
      }
      OutcomeBefore(s, s1, n, ReadRounds(s, n).0, ReadRounds(s, n).1);
    }
  }

  lemma ReadAllMeaning(s: Stream, n: nat)
    ensures ReadOutcome(s, n, ReadAll(s, n).0, ReadAll(s, n).1)
  {
    ReadStartUnread(s, n);
    if ReadStart(s, n).1.Waiting? {
      hide ReadRounds;
      ReadRoundsMeaning(s, n);
    }
  }

  /** What k Reads of n bytes, one after the other, return together. */
  function ReadTimes(s: Stream, n: nat, k: nat): seq<byte>
    decreases k
  {
    if k == 0 then [] else
    var (s', r) := ReadAll(s, n);
    ReadBytes(r) + ReadTimes(s', n, k - 1)
  }

  /** However small the buffer, as many Reads as there are bytes return all of them, in order. */
  lemma {:induction false} ReadsDrain(s: Stream, n: nat, k: nat)
    requires n > 0 && s.resetErr.None? && NoEmpty(s.queue) && k >= |Unread(s)|
    ensures ReadTimes(s, n, k) == Unread(s)
    decreases k
  {
    hide ReadAll, Unread, NoEmpty;
    if k > 0 {
      var (s', r) := ReadAll(s, n);
      ReadAllMeaning(s, n);
      ReadAllKeeps(s, n);
      ReadsDrain(s', n, k - 1);
    }
  }

  lemma {:induction false} ReadRoundsKeep(s: Stream, n: nat)
    ensures ReadRounds(s, n).0.resetErr == s.resetErr
    decreases |s.queue|
  {
    var (s1, reader, r) := ReadRound(s, n, false);
    if reader.Checking? && ReadEnd(s1, n).1.Waiting? {
      ReadRoundsKeep(s1, n);
    }
  }

  lemma ReadAllKeeps(s: Stream, n: nat)
    ensures ReadAll(s, n).0.resetErr == s.resetErr
  {
    ReadRoundsKeep(ReadStart(s, n).0, n);
  }

  /** The frames a Write of p is cut into. */
  function Chunks(p: seq<byte>): seq<seq<byte>>
    decreases |p|
  {
    if p == [] then [] else if |p| <= MAX_PAYLOAD then [p] else [p[..MAX_PAYLOAD]] + Chunks(p[MAX_PAYLOAD..])
  }

  /** The chunks are non-empty, fit a frame and are p again when put together. */
  lemma {:induction false} ChunksOf(p: seq<byte>)
    ensures Flatten(Chunks(p)) == p
    ensures forall i :: 0 <= i < |Chunks(p)| ==> 0 < |Chunks(p)[i]| <= 65536
    ensures forall i :: 0 <= i < |Chunks(p)| - 1 ==> |Chunks(p)[i]| == 65536
    decreases |p|
  {
    if |p| > MAX_PAYLOAD {
      ChunksOf(p[MAX_PAYLOAD..]);
    } else if p != [] {
      assert Flatten([p]) == p + Flatten([]);
    }
  }

  function DataFrames(id: u32, cs: seq<seq<byte>>): seq<MuxFrame> {
    seq(|cs|, i requires 0 <= i < |cs| => MuxFrame(DATA, id, cs[i]))
  }

  class StreamObject {
    const id: u32
    const conn: Conn
    var queue: seq<Option<seq<byte>>>
    var readBuf: seq<byte>
    var remoteEOF: bool
    var resetErr: Option<StreamError>
    var localDone: bool

    constructor (conn: Conn, id: u32)
      ensures Abs() == NEW_STREAM && this.conn == conn && this.id == id
    {
      this.conn, this.id := conn, id;
      queue, readBuf, remoteEOF, resetErr, localDone := [], [], false, None, false;
    }

    function Abs(): Stream
      reads this
    {
      Stream(queue, readBuf, remoteEOF, resetErr, localDone)
    }

    /** deliver, when it does not block; `drop` is the choice between the two ready cases of its select. */
    method DeliverChunk(p: seq<byte>, drop: bool)
      requires CanDeliver(Abs(), p)
      modifies this`queue
      ensures Abs() == Deliver(old(Abs()), p, drop)
    {
      if |p| == 0 {
        return;
      }
      if resetErr.Some? && (drop || |queue| >= STREAM_READ_BUF) {
        return;
      }
      queue := queue + [Some(p)];
    }

    method OnRemoteClose(drop: bool) returns (done: bool)
      modifies this`remoteEOF, this`queue
      ensures Abs() == RemoteClose(old(Abs()), drop) && done == Done(Abs())
    {
      remoteEOF := true;
      if |queue| < STREAM_READ_BUF && !(resetErr.Some? && drop) {
        queue := queue + [None];
      }
      done := localDone && remoteEOF;
    }

    method OnShutdown(cause: StreamError)
      modifies this`resetErr
      ensures Abs() == Shutdown(old(Abs()), cause)
    {
      if resetErr.None? {
        resetErr := Some(cause);
      }
    }

    method StartRead(n: nat) returns (reader: Reader, r: ReadResult)
      modifies this`readBuf
      ensures (Abs(), reader, r) == ReadStart(old(Abs()), n)
      ensures old(readBuf) != [] ==> r == Got(old(readBuf)[..if n < |old(readBuf)| then n else |old(readBuf)|])
    {
      if |readBuf| > 0 {
        var k := Min(n, |readBuf|);
        reader, r := Idle, Got(readBuf[..k]);
        readBuf := readBuf[k..];
      } else if resetErr.Some? {
        reader, r := Idle, Failed(resetErr.value);
      } else {
        reader, r := Waiting(n), Pending;
      }
    }

    /** One round of the loop; `done` is the choice between the two ready cases of its select. */
    method SelectRead(n: nat, done: bool) returns (reader: Reader, r: ReadResult)
      modifies this`queue, this`readBuf
      ensures (Abs(), reader, r) == ReadRound(old(Abs()), n, done)
      // A chunk at the head of the queue goes out as far as the buffer has room.
      ensures (resetErr == None || !done) && old(queue) != [] && old(queue)[0].Some? ==>
                var chunk := old(queue)[0].value;
                r == Got(chunk[..if n < |chunk| then n else |chunk|])
    {
      if resetErr.Some? && (done || queue == []) {
        return Idle, Failed(resetErr.value);
      }
      if queue == [] {
        return Waiting(n), Pending;
      }
      var chunk := queue[0];
      queue := queue[1..];
      match chunk
      case None =>
        reader, r := Checking(n), Pending;
      case Some(c) =>
        var k := Min(n, |c|);
        if k < |c| {
          readBuf := c[k..];
        }
        reader, r := Idle, Got(c[..k]);
    }

    method CheckEnd(n: nat) returns (reader: Reader, r: ReadResult)
      ensures (Abs(), reader, r) == ReadEnd(Abs(), n)
    {
      if remoteEOF && queue == [] {
        reader, r := Idle, Eof;
      } else {
        reader, r := Waiting(n), Pending;
      }
    }

    /** A Read that nothing interrupts. */
    method ReadInto(n: nat) returns (r: ReadResult)
      modifies this`queue, this`readBuf
      ensures ReadOutcome(old(Abs()), n, Abs(), r)
    {
      hide ReadOutcome;
      ReadAllMeaning(Abs(), n);
      var reader, r' := StartRead(n);
      r := r';
      while reader.Waiting?
        invariant !reader.Checking?
        invariant reader.Waiting? ==> ReadAll(old(Abs()), n) == ReadRounds(Abs(), n)
        invariant !reader.Waiting? ==> ReadAll(old(Abs()), n) == (Abs(), r)
        decreases |queue|
      {
        if queue == [] {
          return if resetErr.Some? then Failed(resetErr.value) else Pending;
        }
        reader, r := SelectRead(n, false);
        if reader.Checking? {
          reader, r := CheckEnd(n);
        }
      }
    }

    /**
     * Write, when nothing else ends the stream: the bytes go out in order, in frames of at most MAX_PAYLOAD, as far
     * as the connection takes them. The count is of the bytes in whole frames; a failing frame shuts the stream.
     */
    method Write(p: seq<byte>) returns (n: nat, err: Option<StreamError>)
      modifies conn, this`resetErr
      ensures if old(resetErr).Some? then n == 0 && err == old(resetErr) && conn.wire == old(conn.wire)
              else if localDone then n == 0 && err == Some(StreamClosed) && conn.wire == old(conn.wire)
              else
                && conn.wire == old(conn.wire) + Cut(Frames(id, p), old(conn.room))
                && n == PayloadBytes(Decode(Cut(Frames(id, p), old(conn.room))))
                && err == if Takes(old(conn.room), |Frames(id, p)|) then None else Some(ConnFailed)
      ensures Abs() == if err == Some(ConnFailed) && old(resetErr).None? && !localDone
                       then Shutdown(old(Abs()), MuxClosed) else old(Abs())
    {
      if resetErr.Some? {
        return 0, resetErr;
      }
      if localDone {
        return 0, Some(StreamClosed);
      }
      hide Frames, Cut, Decode, Takes, Left, PayloadBytes, Shutdown, Progress, Encode, Fits;
      ghost var start, room := conn.wire, conn.room;
      n := 0;
      var rest := p;
      ProgressStart(id, p, start, room);
      while |rest| > 0
        invariant Progress(id, p, start, room, rest, conn.wire, conn.room, n)
        invariant resetErr == old(resetErr)
        decreases |rest|
      {
        var chunk := rest;
        if |chunk| > MAX_PAYLOAD {
          chunk := chunk[..MAX_PAYLOAD];
        }
        ProgressStep(id, p, start, room, rest, conn.wire, conn.room, n);
        var ok := conn.WriteFrame(DATA, id, chunk);
        if !ok {
          OnShutdown(MuxClosed);
          return n, Some(ConnFailed);
        }
        n := n + |chunk|;
        rest := rest[|chunk|..];
      }
      ProgressEnd(id, p, start, room, conn.wire, conn.room, n);
      err := None;
    }
  }

  /** In the middle of a Write: wire, room and count so far, with `rest` to go, come to the outcome for all of p. */
  ghost predicate Progress(id: u32, p: seq<byte>, start: seq<byte>, room: Room, rest: seq<byte>, wire: seq<byte>,
                           left: Room, n: nat)
  {
    && wire + Cut(Frames(id, rest), left) == start + Cut(Frames(id, p), room)
    && n + PayloadBytes(Decode(Cut(Frames(id, rest), left))) == PayloadBytes(Decode(Cut(Frames(id, p), room)))
    && Takes(left, |Frames(id, rest)|) == Takes(room, |Frames(id, p)|)
  }

  lemma ProgressStart(id: u32, p: seq<byte>, start: seq<byte>, room: Room)
    ensures Progress(id, p, start, room, p, start, room, 0)
  {
    hide Frames, Cut, Decode, Takes, PayloadBytes;
  }

  lemma ProgressEnd(id: u32, p: seq<byte>, start: seq<byte>, room: Room, wire: seq<byte>, left: Room, n: nat)
    requires Progress(id, p, start, room, [], wire, left, n)
    ensures wire == start + Cut(Frames(id, p), room) && n == PayloadBytes(Decode(Cut(Frames(id, p), room)))
    ensures Takes(room, |Frames(id, p)|)
  {
    hide Frames, Cut, Decode, Takes, PayloadBytes;
    NoChunks(id, left);
    assert wire + [] == wire;
  }

  /** One more frame: it gets through, or it breaks off and that is the outcome. */
  lemma ProgressStep(id: u32, p: seq<byte>, start: seq<byte>, room: Room, rest: seq<byte>, wire: seq<byte>,
                     left: Room, n: nat)
    requires rest != [] && Progress(id, p, start, room, rest, wire, left, n)
    ensures var chunk := if |rest| > MAX_PAYLOAD then rest[..MAX_PAYLOAD] else rest;
      var f := MuxFrame(DATA, id, chunk);
      && Fits(f)
      && (Takes(left, |Encode(f)|) ==>
            Progress(id, p, start, room, rest[|chunk|..], wire + Cut(Encode(f), left), Left(left, |Encode(f)|),
                     n + |chunk|))
      && (!Takes(left, |Encode(f)|) ==>
            && wire + Cut(Encode(f), left) == start + Cut(Frames(id, p), room)
            && n == PayloadBytes(Decode(Cut(Frames(id, p), room))) && !Takes(room, |Frames(id, p)|))
  {
    hide Frames, Cut, Decode, Takes, Left, PayloadBytes, Encode, Fits;
    var chunk := if |rest| > MAX_PAYLOAD then rest[..MAX_PAYLOAD] else rest;
    var f := MuxFrame(DATA, id, chunk);
    NextChunk(id, rest, left);
    if Takes(left, |Encode(f)|) {
      FullCut(Encode(f), left);
      var after := Cut(Frames(id, rest[|chunk|..]), Left(left, |Encode(f)|));
      assert wire + (Encode(f) + after) == wire + Encode(f) + after;
    }
  }

  /** The bytes of the frames that carry p. */
  ghost function Frames(id: u32, p: seq<byte>): seq<byte> {
    ChunksOf(p);
    EncodeAll(DataFrames(id, Chunks(p)))
  }

  lemma NoChunks(id: u32, room: Room)
    ensures var none := Frames(id, []);
      Cut(none, room) == [] && PayloadBytes(Decode(Cut(none, room))) == 0 && Takes(room, |none|)
  {
  }

  lemma FullCut(b: seq<byte>, room: Room)
    requires Takes(room, |b|)
    ensures Cut(b, room) == b
  {
  }

  /** The first chunk of what is left, on a connection that takes it or breaks within it. */
  lemma NextChunk(id: u32, rest: seq<byte>, room: Room)
    requires rest != []
    ensures var chunk := if |rest| > MAX_PAYLOAD then rest[..MAX_PAYLOAD] else rest;
      var f, bytes, more := MuxFrame(DATA, id, chunk), Frames(id, rest), Frames(id, rest[|chunk|..]);
      && Fits(f)
      && (Takes(room, |Encode(f)|) ==>
            && Cut(bytes, room) == Encode(f) + Cut(more, Left(room, |Encode(f)|))
            && Takes(room, |bytes|) == Takes(Left(room, |Encode(f)|), |more|)
            && PayloadBytes(Decode(Cut(bytes, room)))
               == |chunk| + PayloadBytes(Decode(Cut(more, Left(room, |Encode(f)|)))))
      && (!Takes(room, |Encode(f)|) ==>
            && Cut(bytes, room) == Cut(Encode(f), room) && !Takes(room, |bytes|)
            && PayloadBytes(Decode(Cut(bytes, room))) == 0)
  {
    var chunk := if |rest| > MAX_PAYLOAD then rest[..MAX_PAYLOAD] else rest;
    var fs := DataFrames(id, Chunks(rest));
    assert Chunks(rest) == [chunk] + Chunks(rest[|chunk|..]);
    assert fs[0] == MuxFrame(DATA, id, chunk) && fs[1..] == DataFrames(id, Chunks(rest[|chunk|..]));
    ChunksOf(rest);
    hide Chunks, DataFrames, Cut, Decode, Takes, Left, Encode;
    CutFirst(fs, room);
    DecodeCutFirst(fs, room);
  }
}
