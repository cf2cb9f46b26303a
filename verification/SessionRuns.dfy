/**
 * Whole runs of two mirrored sessions under one key over a network that may drop, repeat, reorder, alter or
 * invent datagrams: what is delivered was sent, at most once, and no nonce is used twice on the wire.
 */
module SessionRuns {
  import opened Bytes
  import opened Replay
  import opened Frame
  import opened Fec
  import opened Sequences
  import opened Session

  /** One end: its session, the plaintexts it sealed successfully, and what it delivered. */
  datatype End = End(snd: Sender, rcv: Receiver, sent: seq<seq<byte>>, got: seq<Delivery>)

  /** A datagram on the wire with the direction byte of its sender. */
  datatype Wire = Wire(dir: byte, datagram: seq<byte>)

  datatype World = World(a: End, b: End, table: Emitted, wire: seq<Wire>)

  datatype Event =
    | SealAtA(plain: seq<byte>)
    | SealAtB(plain: seq<byte>)
    | ArriveAtA(datagram: seq<byte>)
    | ArriveAtB(datagram: seq<byte>)

  /** Each end chooses its own block size. */
  datatype Setup = Setup(cipher: Cipher, fecKA: int, fecKB: int, dirA: byte, dirB: byte)

  function NewEnd(fecK: int, sendDir: byte, recvDir: byte): End {
    End(Sender(sendDir, 0, NewEnc(fecK)), Receiver(recvDir, Enabled(fecK), EMPTY, EMPTY_DEC), [], [])
  }

  function Start(u: Setup): World {
    World(NewEnd(u.fecKA, u.dirA, u.dirB), NewEnd(u.fecKB, u.dirB, u.dirA), map[], [])
  }

  function OnWire(dir: byte, frames: seq<seq<byte>>): seq<Wire> {
    seq(|frames|, i requires 0 <= i < |frames| => Wire(dir, frames[i]))
  }

  function SealAt(cipher: Cipher, e: End, table: Emitted, wire: seq<Wire>, plain: seq<byte>)
    : (End, Emitted, seq<Wire>)
  {
    match SealStep(cipher, e.snd, plain)
    case RekeyRequired => (e, table, wire)
    case TooLarge => (e, table, wire)
    case Sealed(next, key, frames) =>
      (e.(snd := next, sent := e.sent + [plain]), table[key := plain], wire + OnWire(e.snd.dir, frames))
  }

  ghost function ArriveAt(e: End, table: Emitted, datagram: seq<byte>): End {
    var (rcv, out) := OpenStep(e.rcv, table, datagram);
    e.(rcv := rcv, got := e.got + if out.Ok? then out.value else [])
  }

  ghost function Step(cipher: Cipher, w: World, e: Event): World {
    match e
    case SealAtA(plain) =>
      var (a, table, wire) := SealAt(cipher, w.a, w.table, w.wire, plain);
      World(a, w.b, table, wire)
    case SealAtB(plain) =>
      var (b, table, wire) := SealAt(cipher, w.b, w.table, w.wire, plain);
      World(w.a, b, table, wire)
    case ArriveAtA(datagram) => w.(a := ArriveAt(w.a, w.table, datagram))
    case ArriveAtB(datagram) => w.(b := ArriveAt(w.b, w.table, datagram))
  }

  ghost function Run(u: Setup, events: seq<Event>): World {
    if events == [] then Start(u) else Step(u.cipher, Run(u, events[..|events| - 1]), events[|events| - 1])
  }

  // ---- What every step keeps ----

  /** Records under a direction's nonces are the plaintexts that direction sent. */
  ghost predicate TableHolds(table: Emitted, dir: byte, sent: seq<seq<byte>>) {
    forall key, c: u64 :: key in table && key.nonce == Nonce(dir, c) ==> c < |sent| && table[key] == sent[c]
  }

  ghost predicate SenderHolds(s: Sender, dir: byte, sent: seq<seq<byte>>) {
    s.dir == dir && s.ctr == |sent| <= REKEY_AFTER
  }

  function Counters(got: seq<Delivery>): set<u64> {
    set d | d in got :: d.counter
  }

  ghost predicate Genuine(got: seq<Delivery>, sent: seq<seq<byte>>) {
    forall i :: 0 <= i < |got| ==> got[i].counter < |sent| && got[i].plain == sent[got[i].counter]
  }

  ghost predicate AtMostOnce(got: seq<Delivery>) {
    forall i, j :: 0 <= i < j < |got| ==> got[i].counter != got[j].counter
  }

  ghost predicate ReceiverHolds(r: Receiver, dir: byte, got: seq<Delivery>, sent: seq<seq<byte>>) {
    && r.dir == dir
    && Represents(r.replay, Counters(got))
    && Genuine(got, sent)
    && AtMostOnce(got)
  }

  /** The counter of a data frame, read off its bytes. */
  function WireCounter(datagram: seq<byte>): Option<u64> {
    match ParseFrame(datagram)
    case Err(_) => None
    case Ok(f) =>
      if f.typ != TYPE_DATA then None else
      match ParseDataBody(f.body)
      case Err(_) => None
      case Ok(p) => Some(p.counter)
  }

  /** What identifies the nonce of a data frame: direction and counter. Parity frames carry none. */
  datatype NonceId = NonceId(dir: byte, counter: u64)

  function WireId(w: Wire): Option<NonceId> {
    if WireCounter(w.datagram).None? then None else Some(NonceId(w.dir, WireCounter(w.datagram).value))
  }

  function WireIds(wire: seq<Wire>): seq<Option<NonceId>> {
    seq(|wire|, i requires 0 <= i < |wire| => WireId(wire[i]))
  }

  /** Every identity on the wire is of one of the two senders and below what that sender used up. */
  ghost predicate IdsBelow(ids: seq<Option<NonceId>>, dirA: byte, sentA: nat, dirB: byte, sentB: nat) {
    forall i :: 0 <= i < |ids| && ids[i].Some? ==>
      || (ids[i].value.dir == dirA && ids[i].value.counter < sentA)
      || (ids[i].value.dir == dirB && ids[i].value.counter < sentB)
  }

  ghost predicate NoRepeat(ids: seq<Option<NonceId>>) {
    forall i, j :: 0 <= i < j < |ids| && ids[i].Some? ==> ids[i] != ids[j]
  }

  ghost predicate Inv(u: Setup, w: World) {
    && SenderHolds(w.a.snd, u.dirA, w.a.sent) && SenderHolds(w.b.snd, u.dirB, w.b.sent)
    && TableHolds(w.table, u.dirA, w.a.sent) && TableHolds(w.table, u.dirB, w.b.sent)
    && ReceiverHolds(w.a.rcv, u.dirB, w.a.got, w.b.sent) && ReceiverHolds(w.b.rcv, u.dirA, w.b.got, w.a.sent)
    && IdsBelow(WireIds(w.wire), u.dirA, |w.a.sent|, u.dirB, |w.b.sent|)
    && NoRepeat(WireIds(w.wire))
  }

  // ---- Sealing ----

  /** The frames of a successful Seal: one data frame with the sender's counter, perhaps one parity frame. */
  lemma SealedFrames(cipher: Cipher, s: Sender, plain: seq<byte>)
    requires SealStep(cipher, s, plain).Sealed?
    ensures var o := SealStep(cipher, s, plain);
      && 1 <= |o.frames| <= 2
      && WireCounter(o.frames[0]) == Some(s.ctr)
      && (|o.frames| == 2 ==> WireCounter(o.frames[1]) == None)
      && o.next.dir == s.dir && o.next.ctr == s.ctr + 1
      && o.key.nonce == Nonce(s.dir, s.ctr)
  {
    var o := SealStep(cipher, s, plain);
    var (blockID, index, k) := Slot(s);
    var body := DataBody(s.ctr, o.key.sealed);
    ParseMarshal(Frame(TYPE_DATA, blockID, index, k, body));
    ParsePaddedDataBody(s.ctr, o.key.sealed, []);
    assert body + [] == body;
    var enc := EncAdd(s.enc, body);
    ParseMarshal(Frame(TYPE_PARITY, enc.blockID, k, k, enc.parity));
  }

  lemma SealKeepsTable(table: Emitted, key: Lookup, plain: seq<byte>, dir: byte, sent: seq<seq<byte>>)
    requires TableHolds(table, dir, sent) && |sent| < REKEY_AFTER && key.nonce == Nonce(dir, |sent|)
    ensures TableHolds(table[key := plain], dir, sent + [plain])
    ensures key !in table
  {
    forall key', c: u64 | key' in table[key := plain] && key'.nonce == Nonce(dir, c)
      ensures c < |sent + [plain]| && table[key := plain][key'] == (sent + [plain])[c]
    {
      if key' == key {
        NonceInjective(dir, c, dir, |sent|);
      }
    }
  }

  lemma SealKeepsOtherTable(table: Emitted, key: Lookup, plain: seq<byte>, dir: byte, c: u64, other: byte,
                            sent: seq<seq<byte>>)
    requires TableHolds(table, other, sent) && key.nonce == Nonce(dir, c) && dir != other
    ensures TableHolds(table[key := plain], other, sent)
  {
    forall key', c': u64 | key' in table[key := plain] && key'.nonce == Nonce(other, c')
      ensures c' < |sent| && table[key := plain][key'] == sent[c']
    {
      if key' == key {
        NonceInjective(other, c', dir, c);
      }
    }
  }

  lemma AppendIds(ids: seq<Option<NonceId>>, more: seq<Option<NonceId>>, dir: byte, sent: nat, other: byte, bound: nat)
    requires dir != other && sent < REKEY_AFTER
    requires IdsBelow(ids, dir, sent, other, bound) && NoRepeat(ids)
    requires more == [Some(NonceId(dir, sent))] || more == [Some(NonceId(dir, sent)), None]
    ensures IdsBelow(ids + more, dir, sent + 1, other, bound) && NoRepeat(ids + more)
  {
  }

  lemma SealKeepsWire(cipher: Cipher, s: Sender, plain: seq<byte>, wire: seq<Wire>, other: byte, bound: nat)
    requires SealStep(cipher, s, plain).Sealed? && s.dir != other
    requires IdsBelow(WireIds(wire), s.dir, s.ctr, other, bound) && NoRepeat(WireIds(wire))
    ensures var ids := WireIds(wire + OnWire(s.dir, SealStep(cipher, s, plain).frames));
            IdsBelow(ids, s.dir, s.ctr + 1, other, bound) && NoRepeat(ids)
  {
    SealedFrames(cipher, s, plain);
    var o := SealStep(cipher, s, plain);
    hide SealStep, WireCounter, IdsBelow, NoRepeat;
    var frames := OnWire(s.dir, o.frames);
    assert WireIds(wire + frames) == WireIds(wire) + WireIds(frames);
    assert WireIds(frames)[0] == Some(NonceId(s.dir, s.ctr));
    if |frames| == 2 {
      assert frames[1].datagram == o.frames[1];
      assert WireId(frames[1]) == None;
    }
    AppendIds(WireIds(wire), WireIds(frames), s.dir, s.ctr, other, bound);
  }

  lemma SealKeepsInv(cipher: Cipher, e: End, dir: byte, f: End, other: byte, table: Emitted, wire: seq<Wire>,
                     plain: seq<byte>)
    requires dir != other
    requires SenderHolds(e.snd, dir, e.sent) && TableHolds(table, dir, e.sent) && TableHolds(table, other, f.sent)
    requires ReceiverHolds(f.rcv, dir, f.got, e.sent)
    requires IdsBelow(WireIds(wire), dir, |e.sent|, other, |f.sent|) && NoRepeat(WireIds(wire))
    ensures var (e', table', wire') := SealAt(cipher, e, table, wire, plain);
      && SenderHolds(e'.snd, dir, e'.sent) && TableHolds(table', dir, e'.sent) && TableHolds(table', other, f.sent)
      && ReceiverHolds(f.rcv, dir, f.got, e'.sent)
      && IdsBelow(WireIds(wire'), dir, |e'.sent|, other, |f.sent|) && NoRepeat(WireIds(wire'))
      && e'.rcv == e.rcv && e'.got == e.got
  {
    var o := SealStep(cipher, e.snd, plain);
    if o.Sealed? {
      SealedFrames(cipher, e.snd, plain);
      SealKeepsTable(table, o.key, plain, dir, e.sent);
      SealKeepsOtherTable(table, o.key, plain, dir, e.snd.ctr, other, f.sent);
      SealKeepsWire(cipher, e.snd, plain, wire, other, |f.sent|);
    }
  }

  // ---- Opening ----

  lemma OpenBodyKeeps(r: Receiver, table: Emitted, body: seq<byte>, aad: seq<byte>, got: seq<Delivery>,
                      sent: seq<seq<byte>>)
    requires ReceiverHolds(r, r.dir, got, sent) && TableHolds(table, r.dir, sent)
    ensures var (r', more) := OpenBody(r, table, body, aad);
            ReceiverHolds(r', r.dir, got + more, sent) && r'.dec == r.dec && r'.fec == r.fec
  {
    var p := ParseDataBody(body);
    var (r', more) := OpenBody(r, table, body, aad);
    if more == [] {
      assert got + more == got;
    } else {
      var c := p.value.counter;
      OfferRefines(r.replay, Counters(got), c);
      assert Counters(got + more) == Counters(got) + {c} by {
        assert more == [Delivery(c, sent[c])];
      }
      forall i | 0 <= i < |got|
        ensures got[i].counter != c
      {
        assert got[i].counter in Counters(got);
      }
    }
  }

  lemma RecoveredKeeps(r: Receiver, table: Emitted, rec: Option<Recovered>, blockID: u32, k: u8,
                       got: seq<Delivery>, sent: seq<seq<byte>>)
    requires ReceiverHolds(r, r.dir, got, sent) && TableHolds(table, r.dir, sent)
    ensures var (r', more) := OpenRecovered(r, table, rec, blockID, k);
            ReceiverHolds(r', r.dir, got + more, sent)
  {
    if rec.None? {
      assert got + [] == got;
    } else {
      OpenBodyKeeps(r, table, rec.value.body, Header(TYPE_DATA, blockID, rec.value.index, k), got, sent);
    }
  }

  lemma OpenFrameKeeps(r: Receiver, table: Emitted, f: Frame, aad: seq<byte>, got: seq<Delivery>, sent: seq<seq<byte>>)
    requires ReceiverHolds(r, r.dir, got, sent) && TableHolds(table, r.dir, sent)
    ensures var (r', more) := OpenFrame(r, table, f, aad);
            ReceiverHolds(r', r.dir, got + more, sent)
  {
    hide OpenBody, OpenRecovered, AddData, AddParity, TableHolds;
    if f.typ != TYPE_DATA {
      if r.fec {
        var (dec, rec) := AddParity(r.dec, f.blockID, f.k, f.body);
        RecoveredKeeps(r.(dec := dec), table, rec, f.blockID, f.k, got, sent);
      } else {
        assert got + [] == got;
      }
    } else {
      OpenBodyKeeps(r, table, f.body, aad, got, sent);
      var (r1, first) := OpenBody(r, table, f.body, aad);
      if first != [] && r.fec {
        var (dec, rec) := AddData(r1.dec, f.blockID, f.k, f.index, f.body);
        RecoveredKeeps(r1.(dec := dec), table, rec, f.blockID, f.k, got + first, sent);
        var more := OpenRecovered(r1.(dec := dec), table, rec, f.blockID, f.k).1;
        assert got + (first + more) == got + first + more;
      }
    }
  }

  lemma OpenKeeps(r: Receiver, table: Emitted, datagram: seq<byte>, got: seq<Delivery>, sent: seq<seq<byte>>)
    requires ReceiverHolds(r, r.dir, got, sent) && TableHolds(table, r.dir, sent)
    ensures var (r', out) := OpenStep(r, table, datagram);
            ReceiverHolds(r', r.dir, got + (if out.Ok? then out.value else []), sent)
  {
    var parsed := ParseFrame(datagram);
    if parsed.Ok? {
      OpenFrameKeeps(r, table, parsed.value, datagram[..FRAME_HEADER_LEN], got, sent);
    } else {
      assert got + [] == got;
    }
  }

  lemma StepKeepsInv(u: Setup, w: World, e: Event)
    requires u.dirA != u.dirB && Inv(u, w)
    ensures Inv(u, Step(u.cipher, w, e))
  {
    match e
    case SealAtA(plain) => SealKeepsInv(u.cipher, w.a, u.dirA, w.b, u.dirB, w.table, w.wire, plain);
    case SealAtB(plain) => SealKeepsInv(u.cipher, w.b, u.dirB, w.a, u.dirA, w.table, w.wire, plain);
    case ArriveAtA(datagram) => OpenKeeps(w.a.rcv, w.table, datagram, w.a.got, w.b.sent);
    case ArriveAtB(datagram) => OpenKeeps(w.b.rcv, w.table, datagram, w.b.got, w.a.sent);
  }

  lemma {:induction false} RunKeepsInv(u: Setup, events: seq<Event>)
    requires u.dirA != u.dirB
    ensures Inv(u, Run(u, events))
  {
    if events != [] {
      RunKeepsInv(u, events[..|events| - 1]);
      StepKeepsInv(u, Run(u, events[..|events| - 1]), events[|events| - 1]);
    }
  }

  // ---- Main results ----

  /** Whatever the network does, deliveries are the peer's plaintexts and no send counter is delivered twice. */
  lemma SessionSafety(u: Setup, events: seq<Event>)
    requires u.dirA != u.dirB
    ensures var w := Run(u, events);
      && Genuine(w.b.got, w.a.sent) && AtMostOnce(w.b.got)
      && Genuine(w.a.got, w.b.sent) && AtMostOnce(w.a.got)
  {
    RunKeepsInv(u, events);
  }

  /** As multisets, what was delivered is among what was sent. */
  lemma {:induction false} DeliveredAmongSent(got: seq<Delivery>, sent: seq<seq<byte>>)
    requires Genuine(got, sent) && AtMostOnce(got)
    ensures multiset(Plains(got)) <= multiset(sent)
    decreases |sent|
  {
    if got == [] {
      assert Plains(got) == [];
    } else {
      assert got[0].counter < |sent|;
      var n := |sent| - 1;
      assert sent == sent[..n] + [sent[n]];
      if i :| 0 <= i < |got| && got[i].counter == n {
        var rest := Without(got, i);
        DropLast(got, sent, i);
        DeliveredAmongSent(rest, sent[..n]);
        PlainsWithout(got, i);
      } else {
        DeliveredAmongSent(got, sent[..n]);
      }
    }
  }

  lemma DropLast(got: seq<Delivery>, sent: seq<seq<byte>>, i: nat)
    requires Genuine(got, sent) && AtMostOnce(got) && i < |got| && got[i].counter == |sent| - 1
    ensures Genuine(Without(got, i), sent[..|sent| - 1]) && AtMostOnce(Without(got, i))
  {
    var rest := Without(got, i);
    forall j | 0 <= j < |rest|
      ensures rest[j] == (if j < i then got[j] else got[j + 1]) && rest[j].counter != |sent| - 1
    {
    }
  }

  lemma PlainsWithout(got: seq<Delivery>, i: nat)
    requires i < |got|
    ensures multiset(Plains(got)) == multiset(Plains(Without(got, i))) + multiset{got[i].plain}
  {
    assert Plains(Without(got, i)) == Without(Plains(got), i);
    WithoutMultiset(Plains(got), i);
  }

  /** No two data frames on the wire carry the same nonce, and every counter is below the rekey threshold. */
  lemma NoncesNeverRepeat(u: Setup, events: seq<Event>, i: nat, j: nat)
    requires u.dirA != u.dirB
    requires i < j < |Run(u, events).wire|
    requires var w := Run(u, events).wire; WireId(w[i]).Some? && WireId(w[j]).Some?
    ensures var w := Run(u, events).wire;
      var x, y := WireId(w[i]).value, WireId(w[j]).value;
      && x.counter < 0x1_0000_0000_0000 && y.counter < 0x1_0000_0000_0000
      && Nonce(x.dir, x.counter) != Nonce(y.dir, y.counter)
  {
    RunKeepsInv(u, events);
    var ids := WireIds(Run(u, events).wire);
    assert ids[i] != ids[j];
    var x, y := ids[i].value, ids[j].value;
    if Nonce(x.dir, x.counter) == Nonce(y.dir, y.counter) {
      NonceInjective(x.dir, x.counter, y.dir, y.counter);
    }
  }

  // ---- Nothing fresh is refused ----

  /** A data frame on the wire is one its sender's key has emitted. */
  ghost predicate Emits(table: Emitted, w: Wire) {
    match ParseFrame(w.datagram)
    case Err(_) => true
    case Ok(f) =>
      f.typ == TYPE_DATA && ParseDataBody(f.body).Ok? ==>
        var p := ParseDataBody(f.body).value;
        Lookup(Nonce(w.dir, p.counter), w.datagram[..FRAME_HEADER_LEN], p.sealed) in table
  }

  ghost predicate AllEmitted(w: World) {
    forall i :: 0 <= i < |w.wire| ==> Emits(w.table, w.wire[i])
  }

  lemma SealEmits(cipher: Cipher, s: Sender, table: Emitted, plain: seq<byte>)
    requires SealStep(cipher, s, plain).Sealed?
    ensures var o := SealStep(cipher, s, plain);
      forall i :: 0 <= i < |o.frames| ==> Emits(table[o.key := plain], Wire(s.dir, o.frames[i]))
  {
    var o := SealStep(cipher, s, plain);
    var (blockID, index, k) := Slot(s);
    var body := DataBody(s.ctr, o.key.sealed);
    ParseMarshal(Frame(TYPE_DATA, blockID, index, k, body));
    MarshalParse(Marshal(Frame(TYPE_DATA, blockID, index, k, body)));
    ParsePaddedDataBody(s.ctr, o.key.sealed, []);
    assert body + [] == body;
    var enc := EncAdd(s.enc, body);
    ParseMarshal(Frame(TYPE_PARITY, enc.blockID, k, k, enc.parity));
  }

  lemma SealKeepsEmitted(cipher: Cipher, e: End, table: Emitted, wire: seq<Wire>, plain: seq<byte>)
    requires forall i :: 0 <= i < |wire| ==> Emits(table, wire[i])
    ensures var (e', table', wire') := SealAt(cipher, e, table, wire, plain);
      forall i :: 0 <= i < |wire'| ==> Emits(table', wire'[i])
  {
    var o := SealStep(cipher, e.snd, plain);
    if o.Sealed? {
      SealEmits(cipher, e.snd, table, plain);
      hide SealStep, ParseFrame, ParseDataBody, Nonce;
    }
  }

  lemma {:induction false} RunKeepsEmitted(u: Setup, events: seq<Event>)
    ensures AllEmitted(Run(u, events))
  {
    if events != [] {
      hide SealAt, OpenStep, Emits;
      var init, last := events[..|events| - 1], events[|events| - 1];
      RunKeepsEmitted(u, init);
      var w := Run(u, init);
      if last.SealAtA? {
        SealKeepsEmitted(u.cipher, w.a, w.table, w.wire, last.plain);
      } else if last.SealAtB? {
        SealKeepsEmitted(u.cipher, w.b, w.table, w.wire, last.plain);
      }
    }
  }

  /** A data frame the key has emitted is delivered exactly when the window takes its counter, and else does nothing. */
  lemma EmittedFrameOpens(r: Receiver, table: Emitted, datagram: seq<byte>, c: u64)
    requires WireCounter(datagram) == Some(c) && Emits(table, Wire(r.dir, datagram))
    ensures var (r', out) := OpenStep(r, table, datagram);
      && out.Ok? && (if Accepts(r.replay, c) then out.value != [] && out.value[0].counter == c else out.value == [])
  {
    hide Nonce, Accepts, Offer, AddData, AddParity, OpenRecovered;
  }

  /**
   * Whatever happened before: a data frame of a's that reaches b is delivered, unless its counter has been delivered
   * already or one 64 or more ahead of it has.
   */
  lemma FreshFrameDelivered(u: Setup, events: seq<Event>, i: nat, c: u64)
    requires u.dirA != u.dirB && i < |Run(u, events).wire|
    requires var w := Run(u, events).wire[i]; w.dir == u.dirA && WireCounter(w.datagram) == Some(c)
    ensures var w := Run(u, events);
      c in Counters(Run(u, events + [ArriveAtB(w.wire[i].datagram)]).b.got) <==>
        c in Counters(w.b.got) || forall a :: a in Counters(w.b.got) ==> a < c + 64
  {
    hide OpenStep, WireCounter, Emits, SealAt;
    var w := Run(u, events);
    var datagram := w.wire[i].datagram;
    var later := events + [ArriveAtB(datagram)];
    assert later[..|later| - 1] == events && later[|later| - 1] == ArriveAtB(datagram);
    RunKeepsInv(u, events);
    RunKeepsEmitted(u, events);
    EmittedFrameOpens(w.b.rcv, w.table, datagram, c);
    AcceptsMeaning(w.b.rcv.replay, Counters(w.b.got), c);
    var out := OpenStep(w.b.rcv, w.table, datagram).1;
    assert Run(u, later).b.got == w.b.got + out.value;
    if Accepts(w.b.rcv.replay, c) {
      assert (w.b.got + out.value)[|w.b.got|].counter == c;
    } else {
      assert w.b.got + out.value == w.b.got;
    }
  }
}
