/**
 * Tunnel session of internal/dptunnel/session.go: AEAD, FEC and replay window composed.
 *
 * The AEAD is ideal. Sealing is a function of nonce, plaintext and additional data chosen by the key; opening
 * succeeds on exactly the (nonce, additional data, ciphertext) triples that were emitted under the key.
 */
module Session {
  import opened Bytes
  import opened Replay
  import opened Frame
  import opened Fec
  import Xor

  const REKEY_AFTER: u64 := 0x1_0000_0000_0000
  const MAX_SEALED: nat := 0xffff

  datatype Lookup = Lookup(nonce: seq<byte>, aad: seq<byte>, sealed: seq<byte>)

  /** Everything emitted under a key, with its plaintext. */
  type Emitted = map<Lookup, seq<byte>>

  /** (nonce, plaintext, additional data) to ciphertext. */
  type Cipher = (seq<byte>, seq<byte>, seq<byte>) -> seq<byte>

  class Aead {
    const cipher: Cipher
    var emitted: Emitted

    constructor (cipher: Cipher)
      ensures this.cipher == cipher && emitted == map[]
    {
      this.cipher := cipher;
      emitted := map[];
    }
  }

  function Nonce(dir: byte, counter: u64): (n: seq<byte>)
    ensures |n| == 12
  {
    [dir, 0, 0, 0] + PutBE(counter, 8)
  }

  lemma NonceInjective(dir: byte, c: u64, dir': byte, c': u64)
    requires Nonce(dir, c) == Nonce(dir', c')
    ensures dir == dir' && c == c'
  {
    var n, n' := Nonce(dir, c), Nonce(dir', c');
    assert n[0] == dir && n'[0] == dir';
    assert n[4..] == PutBE(c, 8) && n'[4..] == PutBE(c', 8);
    WidthBounds();
    GetPutBE(c, 8);
    GetPutBE(c', 8);
  }

  // ---- Sending ----

  datatype Sender = Sender(dir: byte, ctr: u64, enc: Enc)

  datatype SealOutcome =
    | RekeyRequired
    | TooLarge
    | Sealed(next: Sender, key: Lookup, frames: seq<seq<byte>>)

  function Slot(s: Sender): (u32, u8, u8) {
    if Enabled(s.enc.k) then (s.enc.blockID, s.enc.count % 0x100, s.enc.k % 0x100)
    else (s.ctr % 0x1_0000_0000, 0, 1)
  }

  function SlotHeader(s: Sender): seq<byte> {
    var (blockID, index, k) := Slot(s);
    Header(TYPE_DATA, blockID, index, k)
  }

  function SealedKey(cipher: Cipher, s: Sender, plain: seq<byte>): Lookup {
    var n := Nonce(s.dir, s.ctr);
    Lookup(n, SlotHeader(s), cipher(n, plain, SlotHeader(s)))
  }

  function SealStep(cipher: Cipher, s: Sender, plain: seq<byte>): (o: SealOutcome)
    ensures o.Sealed? ==> 1 <= |o.frames| <= 2
  {
    if s.ctr >= REKEY_AFTER then RekeyRequired else
    var (blockID, index, k) := Slot(s);
    var key := SealedKey(cipher, s, plain);
    if |key.sealed| > MAX_SEALED then TooLarge else
    var body := DataBody(s.ctr, key.sealed);
    var data := Marshal(Frame(TYPE_DATA, blockID, index, k, body));
    if !Enabled(s.enc.k) then Sealed(s.(ctr := s.ctr + 1), key, [data]) else
    var enc := EncAdd(s.enc, body);
    if !BlockDone(enc) then Sealed(s.(ctr := s.ctr + 1, enc := enc), key, [data]) else
    var parity := Marshal(Frame(TYPE_PARITY, enc.blockID, k, k, enc.parity));
    Sealed(s.(ctr := s.ctr + 1, enc := NextBlock(enc)), key, [data, parity])
  }

  // ---- Receiving ----

  datatype Receiver = Receiver(dir: byte, fec: bool, replay: Window, dec: Dec)

  datatype Delivery = Delivery(counter: u64, plain: seq<byte>)

  /** openAndAccept */
  function OpenBody(r: Receiver, table: Emitted, body: seq<byte>, aad: seq<byte>): (Receiver, seq<Delivery>) {
    match ParseDataBody(body)
    case Err(_) => (r, [])
    case Ok(p) =>
      var key := Lookup(Nonce(r.dir, p.counter), aad, p.sealed);
      if key in table && Accepts(r.replay, p.counter)
      then (r.(replay := Offer(r.replay, p.counter)), [Delivery(p.counter, table[key])])
      else (r, [])
  }

  /** appendRecovered */
  ghost function OpenRecovered(r: Receiver, table: Emitted, rec: Option<Recovered>, blockID: u32, k: u8)
    : (Receiver, seq<Delivery>)
  {
    if rec.None? then (r, []) else OpenBody(r, table, rec.value.body, Header(TYPE_DATA, blockID, rec.value.index, k))
  }

  ghost function OpenData(r: Receiver, table: Emitted, f: Frame, aad: seq<byte>): (Receiver, seq<Delivery>) {
    var (r1, got) := OpenBody(r, table, f.body, aad);
    if got == [] || !r.fec then (r1, got) else
    var (dec, rec) := AddData(r1.dec, f.blockID, f.k, f.index, f.body);
    var (r2, more) := OpenRecovered(r1.(dec := dec), table, rec, f.blockID, f.k);
    (r2, got + more)
  }

  ghost function OpenParity(r: Receiver, table: Emitted, f: Frame): (Receiver, seq<Delivery>) {
    if !r.fec then (r, []) else
    var (dec, rec) := AddParity(r.dec, f.blockID, f.k, f.body);
    OpenRecovered(r.(dec := dec), table, rec, f.blockID, f.k)
  }

  ghost function OpenFrame(r: Receiver, table: Emitted, f: Frame, aad: seq<byte>): (Receiver, seq<Delivery>) {
    if f.typ == TYPE_DATA then OpenData(r, table, f, aad) else OpenParity(r, table, f)
  }

  ghost function OpenStep(r: Receiver, table: Emitted, datagram: seq<byte>): (Receiver, Result<seq<Delivery>>) {
    match ParseFrame(datagram)
    case Err(e) => (r, Err(e))
    case Ok(f) =>
      var (r', got) := OpenFrame(r, table, f, datagram[..FRAME_HEADER_LEN]);
      (r', Ok(got))
  }

  function Plains(ds: seq<Delivery>): seq<seq<byte>> {
    seq(|ds|, i requires 0 <= i < |ds| => ds[i].plain)
  }

  datatype SealError = ErrRekeyRequired | ErrTooLarge

  datatype SealResult = Frames(frames: seq<seq<byte>>) | SealFailed(reason: SealError)

  class Session {
    const aead: Aead
    const sendDir: byte
    const recvDir: byte
    var sendCtr: u64
    const enc: FecEncoder
    const replay: ReplayWindow
    const dec: FecDecoder

    /** The directions must differ: the source panics otherwise. */
    constructor (aead: Aead, fecK: int, sendDir: byte, recvDir: byte)
      requires sendDir != recvDir
      ensures this.aead == aead && fresh(Repr())
      ensures SenderAbs() == Sender(sendDir, 0, NewEnc(fecK))
      ensures ReceiverAbs() == Receiver(recvDir, Enabled(fecK), EMPTY, EMPTY_DEC)
    {
      this.aead := aead;
      this.sendDir, this.recvDir := sendDir, recvDir;
      sendCtr := 0;
      enc := new FecEncoder(fecK);
      replay := new ReplayWindow();
      dec := new FecDecoder();
    }

    ghost function Repr(): set<object>
      reads this, enc
    {
      {this, enc, enc.parity, replay, dec}
    }

    function SenderAbs(): Sender
      reads this, enc, enc.parity
    {
      Sender(sendDir, sendCtr, enc.Abs())
    }

    function ReceiverAbs(): Receiver
      reads this, replay, dec
    {
      Receiver(recvDir, Enabled(enc.k), replay.Abs(), dec.Abs())
    }

    method Seal(plain: seq<byte>) returns (result: SealResult)
      modifies this`sendCtr, enc, enc.parity, aead`emitted
      ensures match SealStep(aead.cipher, old(SenderAbs()), plain)
        case RekeyRequired =>
          result == SealFailed(ErrRekeyRequired) && SenderAbs() == old(SenderAbs()) && aead.emitted == old(aead.emitted)
        case TooLarge =>
          result == SealFailed(ErrTooLarge) && SenderAbs() == old(SenderAbs()) && aead.emitted == old(aead.emitted)
        case Sealed(next, key, frames) =>
          result == Frames(frames) && SenderAbs() == next && aead.emitted == old(aead.emitted)[key := plain]
      ensures enc.parity == old(enc.parity) || fresh(enc.parity)
    {
      if sendCtr >= REKEY_AFTER {
        return SealFailed(ErrRekeyRequired);
      }
      var ctr := sendCtr;
      var blockID: u32, index: u8, k: u8;
      if enc.k > 1 {
        blockID, index := enc.Peek();
        k := enc.k % 0x100;
      } else {
        blockID, index, k := ctr % 0x1_0000_0000, 0, 1;
      }
      var aad := Header(TYPE_DATA, blockID, index, k);
      var nonce := Nonce(sendDir, ctr);
      var sealed := aead.cipher(nonce, plain, aad);
      if |sealed| > MAX_SEALED {
        return SealFailed(ErrTooLarge);
      }
      sendCtr := sendCtr + 1;
      aead.emitted := aead.emitted[Lookup(nonce, aad, sealed) := plain];
      var body := DataBody(ctr, sealed);
      var out := [Marshal(Frame(TYPE_DATA, blockID, index, k, body))];
      if enc.k > 1 {
        var _, _, done := enc.Add(body);
        if done {
          var bid, parity := enc.SealParity();
          out := out + [Marshal(Frame(TYPE_PARITY, bid, k, k, parity))];
        }
      }
      result := Frames(out);
    }

    method OpenAndAccept(body: seq<byte>, aad: seq<byte>) returns (got: seq<Delivery>)
      modifies replay
      ensures (ReceiverAbs(), got) == OpenBody(old(ReceiverAbs()), aead.emitted, body, aad)
    {
      var p := ParseDataBody(body);
      if p.Err? {
        return [];
      }
      var key := Lookup(Nonce(recvDir, p.value.counter), aad, p.value.sealed);
      if key !in aead.emitted {
        return [];
      }
      var accepted := replay.Accept(p.value.counter);
      if !accepted {
        return [];
      }
      got := [Delivery(p.value.counter, aead.emitted[key])];
    }

    method AppendRecovered(rec: Option<Recovered>, blockID: u32, k: u8) returns (got: seq<Delivery>)
      modifies replay
      ensures (ReceiverAbs(), got) == OpenRecovered(old(ReceiverAbs()), aead.emitted, rec, blockID, k)
    {
      if rec.None? {
        return [];
      }
      got := OpenAndAccept(rec.value.body, Header(TYPE_DATA, blockID, rec.value.index, k));
    }

    /** Open, keeping with each delivered plaintext the counter it was authenticated under. */
    method Open(datagram: seq<byte>) returns (out: Result<seq<seq<byte>>>, ghost delivered: Result<seq<Delivery>>)
      modifies replay, dec
      ensures (ReceiverAbs(), delivered) == OpenStep(old(ReceiverAbs()), aead.emitted, datagram)
      ensures out == if delivered.Ok? then Ok(Plains(delivered.value)) else Err(delivered.error)
    {
      var f := ParseFrame(datagram);
      if f.Err? {
        return Err(f.error), Err(f.error);
      }
      var got: seq<Delivery> := [];
      var frame := f.value;
      if frame.typ == TYPE_DATA {
        got := OpenAndAccept(frame.body, datagram[..FRAME_HEADER_LEN]);
        if got == [] {
          assert Plains([]) == [];
          return Ok([]), Ok([]);
        }
        if enc.k > 1 {
          var rec := dec.FeedData(frame.blockID, frame.k, frame.index, frame.body);
          var more := AppendRecovered(rec, frame.blockID, frame.k);
          got := got + more;
        }
      } else {
        if enc.k > 1 {
          var rec := dec.FeedParity(frame.blockID, frame.k, frame.body);
          got := AppendRecovered(rec, frame.blockID, frame.k);
        }
      }
      out, delivered := Ok(Plains(got)), Ok(got);
    }
  }

  // ---- Numbers ----

  /** Direction, three zero bytes, counter in eight bytes. */
  lemma NonceLayout(dir: byte, counter: u64)
    ensures var n := Nonce(dir, counter);
      n[0] == dir && n[1..4] == [0, 0, 0] && GetBE(n[4..]) == counter
  {
    assert Nonce(dir, counter)[4..] == PutBE(counter, 8);
    WidthBounds();
    GetPutBE(counter, 8);
  }

  /** When a plaintext is not sealed: the counter has come to 2^48, or the ciphertext length does not fit two bytes. */
  lemma NotSealed(cipher: Cipher, s: Sender, plain: seq<byte>)
    ensures SealStep(cipher, s, plain) == RekeyRequired <==> s.ctr >= 0x1_0000_0000_0000
    ensures SealStep(cipher, s, plain) == TooLarge <==>
              s.ctr < 0x1_0000_0000_0000 && |SealedKey(cipher, s, plain).sealed| > 65535
  {
    hide Marshal, DataBody, Header, Nonce;
  }

  /**
   * Without error correction each plaintext goes out in one data frame of its own: block number the counter modulo
   * 2^32, index 0, block size 1, and a body with the counter and what the cipher makes of it under this header.
   */
  lemma SealedAlone(cipher: Cipher, s: Sender, plain: seq<byte>)
    requires s.enc.k <= 1 && SealStep(cipher, s, plain).Sealed?
    ensures var o := SealStep(cipher, s, plain);
      var h := Header(0, s.ctr % 0x1_0000_0000, 0, 1);
      && o.key == Lookup(Nonce(s.dir, s.ctr), h, cipher(Nonce(s.dir, s.ctr), plain, h))
      && o.frames == [h + DataBody(s.ctr, o.key.sealed)] && o.next == s.(ctr := s.ctr + 1)
  {
    hide DataBody, Header, Nonce;
  }

  /**
   * With error correction the frame takes the next place in the block, and the one that fills the block is followed by
   * the parity of its bodies, under the block size as its index.
   */
  lemma SealedInBlock(cipher: Cipher, s: Sender, plain: seq<byte>)
    requires s.enc.k > 1 && SealStep(cipher, s, plain).Sealed?
    ensures var o := SealStep(cipher, s, plain);
      var k := s.enc.k % 0x100;
      var h := Header(0, s.enc.blockID, s.enc.count % 0x100, k);
      var body := DataBody(s.ctr, o.key.sealed);
      && o.key == Lookup(Nonce(s.dir, s.ctr), h, cipher(Nonce(s.dir, s.ctr), plain, h))
      && o.next.ctr == s.ctr + 1 && o.next.dir == s.dir
      && (if s.enc.count + 1 < s.enc.k
          then o.frames == [h + body]
               && o.next.enc == Enc(s.enc.k, s.enc.blockID, s.enc.count + 1, Xor.XorPad(s.enc.parity, body))
          else o.frames == [h + body, Header(1, s.enc.blockID, k, k) + Xor.XorPad(s.enc.parity, body)]
               && o.next.enc == Enc(s.enc.k, (s.enc.blockID + 1) % 0x1_0000_0000, 0, []))
  {
    hide DataBody, Header, Nonce, Xor.XorPad;
  }

  /** A datagram that is no frame is an error and changes nothing; a frame never is an error. */
  lemma OpenFails(r: Receiver, table: Emitted, datagram: seq<byte>)
    ensures var (r', out) := OpenStep(r, table, datagram);
      && (out.Err? <==> |datagram| < 8 || datagram[0] != 1 || datagram[1] > 1)
      && (out.Err? ==> r' == r)
  {
    hide OpenFrame;
    Refusals(datagram);
  }

  /** A data frame brings its own packet first, and one recovered with its help after that; a parity frame only that. */
  lemma OwnPacketFirst(r: Receiver, table: Emitted, f: Frame, aad: seq<byte>)
    ensures var out := OpenFrame(r, table, f, aad).1;
      && |out| <= (if f.typ == 0 && r.fec then 2 else 1)
      && (f.typ == 0 && out != [] ==>
            ParseDataBody(f.body).Ok? && out[0].counter == ParseDataBody(f.body).value.counter)
      && (f.typ != 0 && !r.fec ==> out == [])
  {
    hide AddData, AddParity, Accepts, Offer, ParseDataBody, Header, Nonce;
  }
}
