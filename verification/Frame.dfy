/** Datagram framing of internal/dptunnel/frame.go. */
module Frame {
  import opened Bytes

  const FRAME_VERSION: u8 := 1
  const TYPE_DATA: u8 := 0
  const TYPE_PARITY: u8 := 1
  const FRAME_HEADER_LEN: nat := 8
  const BODY_PREFIX_LEN: nat := 10

  datatype Frame = Frame(typ: u8, blockID: u32, index: u8, k: u8, body: seq<byte>)

  datatype ParseError = TooShort | BadVersion | BadType | LengthBeyondBody

  datatype Result<+T> = Ok(value: T) | Err(error: ParseError)

  datatype Payload = Payload(counter: u64, sealed: seq<byte>)

  /** The 8 header bytes, also the additional data of a data frame. */
  function Header(typ: u8, blockID: u32, index: u8, k: u8): (b: seq<byte>)
    ensures |b| == FRAME_HEADER_LEN
  {
    [FRAME_VERSION, typ] + PutBE(blockID, 4) + [index, k]
  }

  method HeaderBytes(typ: u8, blockID: u32, index: u8, k: u8) returns (b: array<byte>)
    ensures fresh(b) && b[..] == Header(typ, blockID, index, k)
  {
    b := new byte[FRAME_HEADER_LEN];
    b[0] := FRAME_VERSION;
    b[1] := typ;
    var id := PutBE(blockID, 4);
    for i := 0 to 4
      invariant b[0] == FRAME_VERSION && b[1] == typ
      invariant b[2..2 + i] == id[..i]
    {
      b[2 + i] := id[i];
    }
    b[6] := index;
    b[7] := k;
    assert b[..] == b[..2] + b[2..6] + b[6..];
  }

  function Marshal(f: Frame): seq<byte> {
    Header(f.typ, f.blockID, f.index, f.k) + f.body
  }

  function ParseFrame(b: seq<byte>): Result<Frame> {
    if |b| < FRAME_HEADER_LEN then Err(TooShort)
    else if b[0] != FRAME_VERSION then Err(BadVersion)
    else if b[1] != TYPE_DATA && b[1] != TYPE_PARITY then Err(BadType)
    else Ok(Frame(b[1], U32(b[2..6]), b[6], b[7], b[FRAME_HEADER_LEN..]))
  }

  /** Counter | PayloadLen | sealed, the length truncated to 16 bits. */
  function DataBody(counter: u64, sealed: seq<byte>): seq<byte> {
    PutBE(counter, 8) + PutBE(|sealed| % 0x1_0000, 2) + sealed
  }

  method MakeDataBody(counter: u64, sealed: seq<byte>) returns (body: array<byte>)
    ensures fresh(body) && body[..] == DataBody(counter, sealed)
  {
    var prefix := PutBE(counter, 8) + PutBE(|sealed| % 0x1_0000, 2);
    body := new byte[BODY_PREFIX_LEN + |sealed|];
    for i := 0 to BODY_PREFIX_LEN
      invariant body[..i] == prefix[..i]
    {
      body[i] := prefix[i];
    }
    for i := 0 to |sealed|
      invariant body[..BODY_PREFIX_LEN] == prefix
      invariant body[BODY_PREFIX_LEN..BODY_PREFIX_LEN + i] == sealed[..i]
    {
      body[BODY_PREFIX_LEN + i] := sealed[i];
    }
    assert body[..] == body[..BODY_PREFIX_LEN] + body[BODY_PREFIX_LEN..];
  }

  function ParseDataBody(body: seq<byte>): Result<Payload> {
    if |body| < BODY_PREFIX_LEN then Err(TooShort) else
    PutGetBE(body[0..8]);
    WidthBounds();
    var counter: u64 := GetBE(body[0..8]);
    var plen := GetBE(body[8..10]);
    if BODY_PREFIX_LEN + plen > |body| then Err(LengthBeyondBody)
    else Ok(Payload(counter, body[BODY_PREFIX_LEN..BODY_PREFIX_LEN + plen]))
  }

  // ---- Round trips ----

  lemma HeaderFields(typ: u8, blockID: u32, index: u8, k: u8)
    ensures var b := Header(typ, blockID, index, k);
            b[0] == FRAME_VERSION && b[1] == typ && U32(b[2..6]) == blockID && b[6] == index && b[7] == k
  {
    var b := Header(typ, blockID, index, k);
    assert b[2..6] == PutBE(blockID, 4);
    WidthBounds();
    GetPutBE(blockID, 4);
  }

  lemma ParseMarshal(f: Frame)
    requires f.typ == TYPE_DATA || f.typ == TYPE_PARITY
    ensures ParseFrame(Marshal(f)) == Ok(f)
  {
    var h := Header(f.typ, f.blockID, f.index, f.k);
    var b := Marshal(f);
    HeaderFields(f.typ, f.blockID, f.index, f.k);
    assert b[..FRAME_HEADER_LEN] == h && b[FRAME_HEADER_LEN..] == f.body;
    assert b[2..6] == h[2..6];
  }

  /** Only marshalled frames parse, and the additional data is the header of the parsed fields. */
  lemma MarshalParse(b: seq<byte>)
    requires ParseFrame(b).Ok?
    ensures var f := ParseFrame(b).value;
            && Marshal(f) == b
            && b[..FRAME_HEADER_LEN] == Header(f.typ, f.blockID, f.index, f.k)
            && (f.typ == TYPE_DATA || f.typ == TYPE_PARITY)
  {
    var f := ParseFrame(b).value;
    PutGetBE(b[2..6]);
    assert b == [b[0], b[1]] + b[2..6] + [b[6], b[7]] + b[8..];
  }

  /** A data body survives any padding behind it: what the recovery of a short body relies on. */
  lemma ParsePaddedDataBody(counter: u64, sealed: seq<byte>, padding: seq<byte>)
    requires |sealed| < 0x1_0000
    ensures ParseDataBody(DataBody(counter, sealed) + padding) == Ok(Payload(counter, sealed))
  {
    var b := DataBody(counter, sealed) + padding;
    assert b[0..8] == PutBE(counter, 8);
    assert b[8..10] == PutBE(|sealed|, 2);
    WidthBounds();
    GetPutBE(counter, 8);
    GetPutBE(|sealed|, 2);
    assert b[10..10 + |sealed|] == sealed;
  }

  lemma ParsedParts(body: seq<byte>)
    requires ParseDataBody(body).Ok?
    ensures var p := ParseDataBody(body).value;
            var n := |p.sealed|;
            && n < 0x1_0000 && 10 + n <= |body| && p.sealed == body[10..10 + n]
            && PutBE(p.counter, 8) == body[0..8] && PutBE(n, 2) == body[8..10]
  {
    PutGetBE(body[0..8]);
    PutGetBE(body[8..10]);
    WidthBounds();
    hide GetBE, PutBE;
  }

  /** Conversely a body parses only when it starts with the data body of what is returned. */
  lemma DataBodyPrefix(body: seq<byte>)
    requires ParseDataBody(body).Ok?
    ensures var p := ParseDataBody(body).value;
            |p.sealed| < 0x1_0000 && DataBody(p.counter, p.sealed) <= body
  {
    hide ParseDataBody, PutBE, GetBE;
    ParsedParts(body);
    var p := ParseDataBody(body).value;
    var n := |p.sealed|;
    assert DataBody(p.counter, p.sealed) == body[0..8] + body[8..10] + body[10..10 + n];
    assert body[0..8] + body[8..10] + body[10..10 + n] == body[..10 + n];
  }

  // ---- The layout, byte by byte ----

  /** Version 1, type, block number, index, block size, body. Type 0 is data, type 1 parity. */
  lemma FrameLayout(f: Frame)
    ensures var b := Marshal(f);
      |b| == 8 + |f.body| && b[0] == 1 && b[1] == f.typ && GetBE(b[2..6]) == f.blockID && b[6] == f.index && b[7] == f.k
      && b[8..] == f.body
    ensures TYPE_DATA == 0 && TYPE_PARITY == 1
  {
    HeaderFields(f.typ, f.blockID, f.index, f.k);
    assert Marshal(f)[2..6] == Header(f.typ, f.blockID, f.index, f.k)[2..6];
  }

  /** Counter in eight bytes, the length of the ciphertext in two, the ciphertext. */
  lemma BodyLayout(counter: u64, sealed: seq<byte>)
    ensures var b := DataBody(counter, sealed);
      |b| == 10 + |sealed| && GetBE(b[..8]) == counter && GetBE(b[8..10]) == |sealed| % 0x1_0000 && b[10..] == sealed
  {
    var b := DataBody(counter, sealed);
    assert b[..8] == PutBE(counter, 8) && b[8..10] == PutBE(|sealed| % 0x1_0000, 2);
    WidthBounds();
    GetPutBE(counter, 8);
    GetPutBE(|sealed| % 0x1_0000, 2);
  }

  /** Everything else is refused: what is too short, of another version or type, or shorter than it says. */
  lemma Refusals(b: seq<byte>)
    ensures |b| < 8 ==> ParseFrame(b) == Err(TooShort)
    ensures |b| >= 8 && b[0] != 1 ==> ParseFrame(b) == Err(BadVersion)
    ensures |b| >= 8 && b[0] == 1 && b[1] > 1 ==> ParseFrame(b) == Err(BadType)
    ensures |b| >= 8 && b[0] == 1 && b[1] <= 1 ==> ParseFrame(b).Ok?
    ensures |b| < 10 ==> ParseDataBody(b) == Err(TooShort)
    ensures |b| >= 10 ==> (ParseDataBody(b).Ok? <==> GetBE(b[8..10]) <= |b| - 10)
    ensures |b| >= 10 && GetBE(b[8..10]) > |b| - 10 ==> ParseDataBody(b) == Err(LengthBeyondBody)
  {
    if |b| >= 10 {
      assert b[0..8] == b[..8];
    }
  }
}
