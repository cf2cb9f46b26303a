/** Frames of the stream multiplexer in internal/revtunnel/stream.go and their decoding from a chunked byte stream. */
module MuxFrames {
  import opened Bytes

  const OPEN: u8 := 1
  const DATA: u8 := 2
  const CLOSE: u8 := 3
  const RST: u8 := 4

  const HEADER_LEN: nat := 9
  const MAX_PAYLOAD: nat := 0x1_0000

  datatype MuxFrame = MuxFrame(typ: u8, id: u32, payload: seq<byte>)

  predicate Fits(f: MuxFrame) {
    |f.payload| <= MAX_PAYLOAD
  }

  function Encode(f: MuxFrame): (b: seq<byte>)
    requires Fits(f)
    ensures |b| == HEADER_LEN + |f.payload|
  {
    [f.typ] + PutBE(f.id, 4) + PutBE(|f.payload|, 4) + f.payload
  }

  function EncodeAll(fs: seq<MuxFrame>): seq<byte>
    requires forall i :: 0 <= i < |fs| ==> Fits(fs[i])
  {
    if fs == [] then [] else Encode(fs[0]) + EncodeAll(fs[1..])
  }

  /** What the read loop dispatches from these bytes: it ends at the first short read or oversized frame. */
  function Decode(b: seq<byte>): seq<MuxFrame> {
    if |b| < HEADER_LEN then [] else
    var len := U32(b[5..9]);
    if len > MAX_PAYLOAD || |b| < HEADER_LEN + len then []
    else [MuxFrame(b[0], U32(b[1..5]), b[HEADER_LEN..HEADER_LEN + len])] + Decode(b[HEADER_LEN + len..])
  }

  // ---- The wire ----

  /** How many more bytes the connection takes before it breaks; None when it does not. */
  type Room = Option<nat>

  predicate Takes(room: Room, n: nat) {
    room.None? || n <= room.value
  }

  /** What of b gets through. */
  function Cut(b: seq<byte>, room: Room): seq<byte> {
    if Takes(room, |b|) then b else b[..room.value]
  }

  function Left(room: Room, n: nat): Room {
    if room.None? then None else Some(if n <= room.value then room.value - n else 0)
  }

  /** The write side of the connection: whole frames, one at a time under the write lock, until it breaks. */
  class Conn {
    var wire: seq<byte>
    var room: Room

    constructor (room: Room)
      ensures wire == [] && this.room == room
    {
      wire, this.room := [], room;
    }

    /** net.Conn's Write: all of b, or an error when the connection breaks within it. */
    method WriteBytes(b: seq<byte>) returns (ok: bool)
      modifies this
      ensures ok == Takes(old(room), |b|)
      ensures wire == old(wire) + Cut(b, old(room)) && room == Left(old(room), |b|)
    {
      ok := Takes(room, |b|);
      wire := wire + Cut(b, room);
      room := Left(room, |b|);
    }

    /** writeFrame: header and payload in two writes, or nothing when the payload is too large. */
    method WriteFrame(typ: u8, id: u32, payload: seq<byte>) returns (ok: bool)
      modifies this
      ensures var f := MuxFrame(typ, id, payload);
        if Fits(f) then ok == Takes(old(room), |Encode(f)|) && wire == old(wire) + Cut(Encode(f), old(room))
                        && room == Left(old(room), |Encode(f)|)
        else !ok && wire == old(wire) && room == old(room)
    {
      if |payload| > MAX_PAYLOAD {
        return false;
      }
      var header := [typ] + PutBE(id, 4) + PutBE(|payload|, 4);
      assert header + payload == Encode(MuxFrame(typ, id, payload));
      ok := WriteBytes(header);
      if !ok {
        assert (header + payload)[..old(room).value] == header[..old(room).value];
        return false;
      }
      if |payload| > 0 {
        ok := WriteBytes(payload);
        if !ok {
          assert (header + payload)[..old(room).value] == header + payload[..old(room).value - |header|];
        }
      } else {
        assert header + payload == header;
      }
    }
  }

  function Flatten(chunks: seq<seq<byte>>): seq<byte> {
    if chunks == [] then [] else chunks[0] + Flatten(chunks[1..])
  }

  /** The read side: bytes come in whatever pieces the reads return. */
  class ChunkReader {
    var chunks: seq<seq<byte>>

    constructor (chunks: seq<seq<byte>>)
      ensures Rest() == Flatten(chunks)
    {
      this.chunks := chunks;
    }

    function Rest(): seq<byte>
      reads this
    {
      Flatten(chunks)
    }

    /** One Read: some of the next piece, at most n bytes of it. */
    method Read(n: nat) returns (b: seq<byte>)
      requires chunks != []
      modifies this
      ensures |b| <= n && b + Rest() == old(Rest())
      ensures |chunks| < old(|chunks|) || (|chunks| == old(|chunks|) && |b| == n)
    {
      var c := chunks[0];
      if |c| <= n {
        b, chunks := c, chunks[1..];
      } else {
        b, chunks := c[..n], [c[n..]] + chunks[1..];
        assert c == c[..n] + c[n..];
      }
    }

    /** io.ReadFull: n bytes, or failure when the stream ends before. */
    method ReadFull(n: nat) returns (ok: bool, b: seq<byte>)
      modifies this
      ensures ok == (|old(Rest())| >= n)
      ensures ok ==> |b| == n && b + Rest() == old(Rest())
    {
      b := [];
      ghost var all := Rest();
      while |b| < n && chunks != []
        invariant |b| <= n && b + Rest() == all
        decreases |chunks|, n - |b|
      {
        var more := Read(n - |b|);
        b := b + more;
      }
      ok := |b| == n;
    }
  }

  lemma DecodeNext(header: seq<byte>, payload: seq<byte>, rest: seq<byte>)
    requires |header| == HEADER_LEN && U32(header[5..9]) == |payload| <= MAX_PAYLOAD
    ensures Decode(header + payload + rest) == [MuxFrame(header[0], U32(header[1..5]), payload)] + Decode(rest)
  {
    var b := header + payload + rest;
    assert b[5..9] == header[5..9] && b[1..5] == header[1..5];
    assert b[HEADER_LEN..HEADER_LEN + |payload|] == payload && b[HEADER_LEN + |payload|..] == rest;
  }

  lemma DecodeShort(b: seq<byte>)
    requires |b| < HEADER_LEN
    ensures Decode(b) == []
  {
  }

  lemma DecodeStops(header: seq<byte>, rest: seq<byte>)
    requires |header| == HEADER_LEN && (U32(header[5..9]) > MAX_PAYLOAD || |rest| < U32(header[5..9]))
    ensures Decode(header + rest) == []
  {
    assert (header + rest)[5..9] == header[5..9];
  }

  /** readLoop: however the bytes are split into reads, the frames dispatched are those of the byte stream. */
  method ReadLoop(r: ChunkReader) returns (frames: seq<MuxFrame>)
    modifies r
    ensures frames == Decode(old(r.Rest()))
  {
    hide U32, Flatten, Decode;
    frames := [];
    ghost var all := r.Rest();
    while true
      invariant frames + Decode(r.Rest()) == Decode(all)
      decreases |r.Rest()|
    {
      ghost var start := r.Rest();
      var ok, header := r.ReadFull(HEADER_LEN);
      if !ok {
        DecodeShort(start);
        return;
      }
      var len := U32(header[5..9]);
      ghost var body := r.Rest();
      if len > MAX_PAYLOAD {
        DecodeStops(header, body);
        return;
      }
      var payload: seq<byte> := [];
      if len > 0 {
        ok, payload := r.ReadFull(len);
        if !ok {
          DecodeStops(header, body);
          return;
        }
      }
      assert header + payload + r.Rest() == start;
      DecodeNext(header, payload, r.Rest());
      ghost var f := MuxFrame(header[0], U32(header[1..5]), payload);
      assert frames + ([f] + Decode(r.Rest())) == frames + [f] + Decode(r.Rest());
      frames := frames + [MuxFrame(header[0], U32(header[1..5]), payload)];
    }
  }

  // ---- Main results ----

  lemma DecodeOne(f: MuxFrame, rest: seq<byte>)
    requires Fits(f)
    ensures Decode(Encode(f) + rest) == [f] + Decode(rest)
  {
    var b := Encode(f) + rest;
    assert b[1..5] == PutBE(f.id, 4) && b[5..9] == PutBE(|f.payload|, 4);
    WidthBounds();
    GetPutBE(f.id, 4);
    GetPutBE(|f.payload|, 4);
    assert b[9..9 + |f.payload|] == f.payload && b[9 + |f.payload|..] == rest;
  }

  /** The read loop gets exactly the frames that were written, in wire order. */
  lemma {:induction false} DecodeEncodeAll(fs: seq<MuxFrame>)
    requires forall i :: 0 <= i < |fs| ==> Fits(fs[i])
    ensures Decode(EncodeAll(fs)) == fs
  {
    if fs != [] {
      DecodeOne(fs[0], EncodeAll(fs[1..]));
      DecodeEncodeAll(fs[1..]);
    }
  }

  /** A partial frame at the end of a cut stream is not dispatched. */
  lemma DecodeCut(f: MuxFrame, n: nat)
    requires Fits(f) && n < |Encode(f)|
    ensures Decode(Encode(f)[..n]) == []
  {
    var b := Encode(f)[..n];
    if n >= HEADER_LEN {
      assert b[5..9] == PutBE(|f.payload|, 4);
      WidthBounds();
      GetPutBE(|f.payload|, 4);
    }
  }

  /** Wherever the connection breaks, what was dispatched is a prefix of what was written. */
  lemma {:induction false} DecodePrefix(fs: seq<MuxFrame>, n: nat)
    requires forall i :: 0 <= i < |fs| ==> Fits(fs[i])
    requires n <= |EncodeAll(fs)|
    ensures Decode(EncodeAll(fs)[..n]) <= fs
    ensures n == |EncodeAll(fs)| ==> Decode(EncodeAll(fs)[..n]) == fs
  {
    if fs != [] {
      hide Encode, Decode;
      var one, rest := Encode(fs[0]), EncodeAll(fs[1..]);
      if n < |one| {
        DecodeCut(fs[0], n);
        assert (one + rest)[..n] == one[..n];
      } else {
        DecodePrefix(fs[1..], n - |one|);
        CutBehind(one, rest, n);
        DecodeOne(fs[0], rest[..n - |one|]);
        assert fs == [fs[0]] + fs[1..];
      }
    }
  }

  lemma CutBehind(a: seq<byte>, b: seq<byte>, n: nat)
    requires |a| <= n <= |a| + |b|
    ensures (a + b)[..n] == a + b[..n - |a|]
  {
  }

  /** Written, split anyhow and read back: the same frames. */
  method Transport(fs: seq<MuxFrame>, chunks: seq<seq<byte>>) returns (got: seq<MuxFrame>)
    requires forall i :: 0 <= i < |fs| ==> Fits(fs[i])
    requires Flatten(chunks) == EncodeAll(fs)
    ensures got == fs
  {
    var r := new ChunkReader(chunks);
    got := ReadLoop(r);
    DecodeEncodeAll(fs);
  }

  /** Frames written one after the other onto a connection that may break: the first that does not fit ends it. */
  lemma CutFirst(fs: seq<MuxFrame>, room: Room)
    requires fs != [] && forall i :: 0 <= i < |fs| ==> Fits(fs[i])
    ensures var n := |Encode(fs[0])|;
      && (Takes(room, n) ==>
            && Cut(EncodeAll(fs), room) == Encode(fs[0]) + Cut(EncodeAll(fs[1..]), Left(room, n))
            && Takes(room, |EncodeAll(fs)|) == Takes(Left(room, n), |EncodeAll(fs[1..])|))
      && (!Takes(room, n) ==>
            Cut(EncodeAll(fs), room) == Cut(Encode(fs[0]), room) && !Takes(room, |EncodeAll(fs)|))
  {
    hide Encode;
    var one, rest := Encode(fs[0]), EncodeAll(fs[1..]);
    if !Takes(room, |one| + |rest|) {
      if Takes(room, |one|) {
        CutBehind(one, rest, room.value);
      } else {
        assert (one + rest)[..room.value] == one[..room.value];
      }
    }
  }

  /** What the peer decodes of it. */
  lemma DecodeCutFirst(fs: seq<MuxFrame>, room: Room)
    requires fs != [] && forall i :: 0 <= i < |fs| ==> Fits(fs[i])
    ensures var n := |Encode(fs[0])|;
      && (Takes(room, n) ==>
            Decode(Cut(EncodeAll(fs), room)) == [fs[0]] + Decode(Cut(EncodeAll(fs[1..]), Left(room, n))))
      && (!Takes(room, n) ==> Decode(Cut(EncodeAll(fs), room)) == [])
  {
    hide Encode, Decode, EncodeAll, Cut;
    CutFirst(fs, room);
    if Takes(room, |Encode(fs[0])|) {
      DecodeOne(fs[0], Cut(EncodeAll(fs[1..]), Left(room, |Encode(fs[0])|)));
    } else {
      CutShort(fs[0], room);
    }
  }

  lemma CutShort(f: MuxFrame, room: Room)
    requires Fits(f) && !Takes(room, |Encode(f)|)
    ensures Decode(Cut(Encode(f), room)) == []
  {
    DecodeCut(f, room.value);
  }

  /** Payload bytes of a list of frames. */
  function PayloadBytes(fs: seq<MuxFrame>): nat {
    if fs == [] then 0 else |fs[0].payload| + PayloadBytes(fs[1..])
  }

  // ---- The layout, byte by byte ----

  /** Type, stream id in four bytes, length in four, payload; types 1 to 4 are OPEN, DATA, CLOSE and RST. */
  lemma FrameLayout(f: MuxFrame)
    requires Fits(f)
    ensures var b := Encode(f);
      |b| == 9 + |f.payload| && b[0] == f.typ && GetBE(b[1..5]) == f.id && GetBE(b[5..9]) == |f.payload|
      && b[9..] == f.payload
    ensures OPEN == 1 && DATA == 2 && CLOSE == 3 && RST == 4
  {
    var b := Encode(f);
    assert b[1..5] == PutBE(f.id, 4) && b[5..9] == PutBE(|f.payload|, 4);
    WidthBounds();
    GetPutBE(f.id, 4);
    GetPutBE(|f.payload|, 4);
  }

  /** A payload may have 65536 bytes and no more; a frame that says it has more ends the decoding. */
  lemma PayloadLimit(f: MuxFrame, b: seq<byte>)
    ensures Fits(f) <==> |f.payload| <= 65536
    ensures |b| >= 9 && GetBE(b[5..9]) > 65536 ==> Decode(b) == []
  {
  }
}
