/**
 * Loss repair from Seal to Open: complete blocks, in order, every parity arriving, at most one data frame of
 * each block lost. Exactly which plaintexts come out depends on the replay window still taking the recovered counter.
 */
module FecEndToEnd {
  import opened Bytes
  import opened Xor
  import opened Replay
  import opened Frame
  import opened Fec
  import opened FecRecovery
  import opened Sequences
  import opened Session
  import opened SessionRuns

  /** One block of plaintexts and the index of its lost data frame; drop == |plains| when none is lost. */
  datatype Batch = Batch(plains: seq<seq<byte>>, drop: nat)

  /** A sender, the receiver at the other end, what was sealed and what was delivered. */
  datatype Link = Link(snd: Sender, rcv: Receiver, table: Emitted, sent: seq<seq<byte>>, got: seq<Delivery>)

  function NewLink(k: int, dir: byte): Link {
    Link(Sender(dir, 0, NewEnc(k)), Receiver(dir, Enabled(k), EMPTY, EMPTY_DEC), map[], [], [])
  }

  ghost function Arrive(l: Link, datagram: seq<byte>): (l': Link)
    ensures l'.snd == l.snd && l'.table == l.table && l'.sent == l.sent && l.got <= l'.got
  {
    var (rcv, out) := OpenStep(l.rcv, l.table, datagram);
    l.(rcv := rcv, got := l.got + if out.Ok? then out.value else [])
  }

  /** Seal one plaintext and deliver its frames, without the data frame when that is lost. */
  ghost function SendOne(cipher: Cipher, l: Link, plain: seq<byte>, lost: bool): Link {
    match SealStep(cipher, l.snd, plain)
    case RekeyRequired => l
    case TooLarge => l
    case Sealed(next, key, frames) =>
      var l0 := l.(snd := next, table := l.table[key := plain], sent := l.sent + [plain]);
      var l1 := if lost then l0 else Arrive(l0, frames[0]);
      if |frames| == 1 then l1 else Arrive(l1, frames[1])
  }

  ghost function SendFirst(cipher: Cipher, l: Link, blk: Batch, j: nat): Link
    requires j <= |blk.plains|
  {
    if j == 0 then l else SendOne(cipher, SendFirst(cipher, l, blk, j - 1), blk.plains[j - 1], j - 1 == blk.drop)
  }

  ghost function SendBlocks(cipher: Cipher, l: Link, blks: seq<Batch>): Link {
    if blks == [] then l else
    var last := blks[|blks| - 1];
    SendFirst(cipher, SendBlocks(cipher, l, blks[..|blks| - 1]), last, |last.plains|)
  }

  // ---- The decoder inside a block ----

  const NO_DROP: nat := 256

  /** The bodies of a block below index n, without the dropped one. */
  function Kept(bodies: seq<seq<byte>>, n: nat, drop: nat): (data: Bodies)
    requires n <= |bodies| <= 255
    ensures forall i: u8 :: i in data <==> i < n && i != drop
    ensures forall i: u8 :: i in data ==> data[i] == bodies[i]
  {
    if n == 0 then map[] else
    var rest := Kept(bodies, n - 1, drop);
    if n - 1 == drop then rest else rest[n - 1 := bodies[n - 1]]
  }

  lemma {:induction false} KeptAll(bodies: seq<seq<byte>>, n: nat, drop: nat)
    requires n <= |bodies| <= 255 && n <= drop
    ensures |Kept(bodies, n, drop)| == n && Kept(bodies, n, drop) == Kept(bodies, n, NO_DROP)
  {
    if n > 0 {
      KeptAll(bodies, n - 1, drop);
    }
  }

  lemma KeptOthers(s: BlockSpec)
    requires SpecValid(s)
    ensures Kept(s.bodies, |s.bodies|, s.missing) == BodyMap(s.bodies, Others(s))
    ensures Kept(s.bodies, |s.bodies|, NO_DROP) == BodyMap(s.bodies, Below(|s.bodies|))
  {
    hide Kept, Below;
  }

  /** The decoder holds exactly these bodies of block b, without parity, and nothing newer. */
  ghost predicate Collects(b: u32, k: u8, data: Bodies, d: Dec) {
    && DecValid(d)
    && (d.seen ==> d.highest <= b)
    && (if data == map[] then b !in d.blocks else b in d.blocks && d.blocks[b] == Block(k, data, [], false, false))
  }

  lemma CollectFetch(b: u32, k: u8, data: Bodies, d: Dec)
    requires Collects(b, k, data, d)
    ensures var f := Fetch(d, b, k);
      && f.Some? && DecValid(f.value) && f.value.highest <= b && f.value.seen && b in f.value.blocks
      && f.value.blocks[b] == Block(k, data, [], false, false)
  {
    FetchBlocks(d, b, k);
  }

  lemma BufferKeepsValid(d: Dec, id: u32, b: Fec.Block)
    requires DecValid(d) && id in d.blocks && !b.recovered && !b.hasParity
    ensures DecValid(d.(blocks := d.blocks[id := b]))
    ensures TryRecover(d.(blocks := d.blocks[id := b]), id) == (d.(blocks := d.blocks[id := b]), None)
  {
  }

  lemma CollectData(b: u32, k: u8, data: Bodies, d: Dec, j: u8, body: seq<byte>)
    requires Collects(b, k, data, d)
    ensures var (d', rec) := AddData(d, b, k, j, body);
            rec == None && Collects(b, k, data[j := body], d')
  {
    CollectFetch(b, k, data, d);
    var f := Fetch(d, b, k).value;
    var blk := f.blocks[b].(data := data[j := body]);
    BufferKeepsValid(f, b, blk);
    assert j in data[j := body];
  }

  /** All but one: the parity recovers the missing body. */
  lemma CollectParity(s: BlockSpec, d: Dec)
    requires SpecValid(s) && Collects(s.id, K(s), Kept(s.bodies, |s.bodies|, s.missing), d)
    ensures var (d', rec) := AddParity(d, s.id, K(s), Parity(s));
            rec == Some(TheRecovery(s)) && DecValid(d') && (d'.seen ==> d'.highest <= s.id)
  {
    KeptOthers(s);
    var i: u8 := if s.missing == 0 then 1 else 0;
    assert i in Kept(s.bodies, |s.bodies|, s.missing);
    OwnParityStep(s, Others(s), d);
    FetchBlocks(d, s.id, K(s));
  }

  /** All of them: the parity recovers nothing. */
  lemma CollectParityFull(b: u32, bodies: seq<seq<byte>>, d: Dec, parity: seq<byte>)
    requires 1 <= |bodies| <= 255 && Collects(b, |bodies|, Kept(bodies, |bodies|, |bodies|), d)
    ensures var (d', rec) := AddParity(d, b, |bodies|, parity);
            rec == None && DecValid(d') && (d'.seen ==> d'.highest <= b)
  {
    KeptAll(bodies, |bodies|, |bodies|);
    CollectFetch(b, |bodies|, Kept(bodies, |bodies|, |bodies|), d);
  }

  // ---- The sender inside a block ----

  lemma ParityGrows(bodies: seq<seq<byte>>, j: u8)
    requires |bodies| <= 255 && j < |bodies|
    ensures XorAll(Kept(bodies, j + 1, NO_DROP)) == XorPad(XorAll(Kept(bodies, j, NO_DROP)), bodies[j])
  {
    XorAllInsert(Kept(bodies, j, NO_DROP), j, bodies[j]);
  }

  function DataFrame(b: u32, k: u8, i: u8, body: seq<byte>): Frame {
    Frame(TYPE_DATA, b, i, k, body)
  }

  function ParityFrame(b: u32, k: u8, body: seq<byte>): Frame {
    Frame(TYPE_PARITY, b, k, k, body)
  }

  function KeyAt(cipher: Cipher, dir: byte, ctr: u64, b: u32, k: u8, j: u8, plain: seq<byte>): Lookup {
    var aad := Header(TYPE_DATA, b, j, k);
    Lookup(Nonce(dir, ctr), aad, cipher(Nonce(dir, ctr), plain, aad))
  }

  /** Seal with FEC on: the slot of the frame, the next slot, and the parity of a finished block. */
  lemma SealWithFec(cipher: Cipher, dir: byte, ctr: u64, b: u32, k: u8, j: u8, parity: seq<byte>, plain: seq<byte>)
    requires 2 <= k && j < k && ctr < REKEY_AFTER
    requires |KeyAt(cipher, dir, ctr, b, k, j, plain).sealed| <= MAX_SEALED
    ensures var key := KeyAt(cipher, dir, ctr, b, k, j, plain);
      var body := DataBody(ctr, key.sealed);
      var o := SealStep(cipher, Sender(dir, ctr, Enc(k, b, j, parity)), plain);
      && o.Sealed? && o.key == key
      && |o.frames| == (if j + 1 < k then 1 else 2)
      && o.frames[0] == Marshal(DataFrame(b, k, j, body))
      && (j + 1 == k ==> o.frames[1] == Marshal(ParityFrame(b, k, XorPad(parity, body))))
      && o.next == Sender(dir, ctr + 1, if j + 1 < k then Enc(k, b, j + 1, XorPad(parity, body))
                                        else Enc(k, (b + 1) % 0x1_0000_0000, 0, []))
  {
  }

  // ---- The receiver on genuine frames ----

  ghost predicate AllBelow(cs: set<u64>, n: nat) {
    forall c :: c in cs ==> c < n
  }

  lemma OpenDataFrame(r: Receiver, table: Emitted, b: u32, k: u8, j: u8, ctr: u64, sealed: seq<byte>, got: set<u64>)
    requires r.fec && |sealed| <= MAX_SEALED && Represents(r.replay, got) && AllBelow(got, ctr)
    requires Lookup(Nonce(r.dir, ctr), Header(TYPE_DATA, b, j, k), sealed) in table
    requires AddData(r.dec, b, k, j, DataBody(ctr, sealed)).1 == None
    ensures var body := DataBody(ctr, sealed);
      OpenStep(r, table, Marshal(DataFrame(b, k, j, body)))
      == (r.(replay := Offer(r.replay, ctr), dec := AddData(r.dec, b, k, j, body).0),
          Ok([Delivery(ctr, table[Lookup(Nonce(r.dir, ctr), Header(TYPE_DATA, b, j, k), sealed)])]))
  {
    var f := DataFrame(b, k, j, DataBody(ctr, sealed));
    ParseMarshal(f);
    MarshalParse(Marshal(f));
    ParsePaddedDataBody(ctr, sealed, []);
    assert f.body + [] == f.body;
    assert Accepts(r.replay, ctr);
    var key := Lookup(Nonce(r.dir, ctr), Header(TYPE_DATA, b, j, k), sealed);
    assert OpenBody(r, table, f.body, Header(TYPE_DATA, b, j, k))
        == (r.(replay := Offer(r.replay, ctr)), [Delivery(ctr, table[key])]);
    assert [Delivery(ctr, table[key])] + [] == [Delivery(ctr, table[key])];
  }

  lemma OpenParityFrame(r: Receiver, table: Emitted, b: u32, k: u8, body: seq<byte>)
    requires r.fec
    ensures var (dec, rec) := AddParity(r.dec, b, k, body);
      var (r', more) := OpenRecovered(r.(dec := dec), table, rec, b, k);
      OpenStep(r, table, Marshal(ParityFrame(b, k, body))) == (r', Ok(more))
  {
    ParseMarshal(ParityFrame(b, k, body));
  }

  lemma OpenRecoveredBody(r: Receiver, table: Emitted, b: u32, k: u8, j: u8, ctr: u64, sealed: seq<byte>, n: nat)
    requires |sealed| <= MAX_SEALED && |DataBody(ctr, sealed)| <= n
    requires Lookup(Nonce(r.dir, ctr), Header(TYPE_DATA, b, j, k), sealed) in table
    ensures OpenRecovered(r, table, Some(Recovered(PadTo(DataBody(ctr, sealed), n), j)), b, k)
         == if Accepts(r.replay, ctr)
            then (r.(replay := Offer(r.replay, ctr)),
                  [Delivery(ctr, table[Lookup(Nonce(r.dir, ctr), Header(TYPE_DATA, b, j, k), sealed)])])
            else (r, [])
  {
    ParsePaddedDataBody(ctr, sealed, seq(n - |DataBody(ctr, sealed)|, _ => 0));
  }

  // ---- One block: its place in the counter space and its bodies ----

  /**
   * `base` is the block's first counter, `keys` what is sealed for its plaintexts, `drop` the lost index
   * and `before` the counters delivered when the block starts.
   */
  datatype Ctx = Ctx(k: u8, dir: byte, b: u32, base: nat, plains: seq<seq<byte>>, keys: seq<Lookup>,
                     bodies: seq<seq<byte>>, drop: nat, before: set<u64>)

  ghost predicate CtxValid(x: Ctx) {
    && 2 <= x.k && x.drop <= x.k
    && x.base + x.k <= REKEY_AFTER
    && |x.plains| == x.k == |x.keys| == |x.bodies|
    && (forall i :: 0 <= i < x.k ==> KeyFits(x, i, x.keys[i], x.bodies[i]))
  }

  ghost predicate KeyFits(x: Ctx, i: nat, key: Lookup, body: seq<byte>)
    requires i < x.k && x.base + x.k <= REKEY_AFTER
  {
    && key.nonce == Nonce(x.dir, x.base + i) && key.aad == Header(TYPE_DATA, x.b, i, x.k) && |key.sealed| <= MAX_SEALED
    && body == DataBody(x.base + i, key.sealed)
  }

  ghost function Ctr(x: Ctx, i: nat): u64
    requires CtxValid(x) && i < x.k
  {
    x.base + i
  }

  ghost function Spec(x: Ctx): BlockSpec
    requires CtxValid(x) && x.drop < x.k
  {
    BlockSpec(x.b, x.bodies, x.drop)
  }

  // ---- The state inside a block ----

  ghost predicate LinkHolds(x: Ctx, j: nat, l: Link)
    requires CtxValid(x) && j <= x.k
  {
    && SenderHolds(l.snd, x.dir, l.sent) && TableHolds(l.table, x.dir, l.sent)
    && ReceiverHolds(l.rcv, x.dir, l.got, l.sent) && l.rcv.fec
    && |l.sent| == x.base + j
    && (forall i :: 0 <= i < j ==> x.keys[i] in l.table)
  }

  /** What the block did to the delivered counters: its first j survivors, and nothing of earlier blocks. */
  ghost predicate Delivered(x: Ctx, j: nat, got: seq<Delivery>)
    requires CtxValid(x) && j <= x.k
  {
    && (forall i :: 0 <= i < j ==> (Ctr(x, i) in Counters(got) <==> i != x.drop))
    && (forall c: u64 :: c < x.base ==> (c in Counters(got) <==> c in x.before))
  }

  ghost function ParityOf(x: Ctx, j: nat): seq<byte>
    requires CtxValid(x) && j <= x.k
  {
    XorAll(Kept(x.bodies, j, NO_DROP))
  }

  /** The sender after j plaintexts of the block, and at its end in the next block. */
  ghost function SenderAt(x: Ctx, j: nat): Sender
    requires CtxValid(x) && j <= x.k
  {
    Sender(x.dir, x.base + j,
           if j < x.k then Enc(x.k, x.b, j, ParityOf(x, j)) else Enc(x.k, (x.b + 1) % 0x1_0000_0000, 0, []))
  }

  ghost predicate InBlock(x: Ctx, j: nat, l: Link)
    requires CtxValid(x) && j <= x.k
  {
    && LinkHolds(x, j, l)
    && l.snd == SenderAt(x, j)
    && Collects(x.b, x.k, Kept(x.bodies, j, x.drop), l.rcv.dec)
    && Delivered(x, j, l.got)
  }

  lemma KeyForm(x: Ctx, j: nat)
    requires CtxValid(x) && j < x.k
    ensures x.keys[j] == Lookup(Nonce(x.dir, Ctr(x, j)), Header(TYPE_DATA, x.b, j, x.k), x.keys[j].sealed)
    ensures x.bodies[j] == DataBody(Ctr(x, j), x.keys[j].sealed) && |x.keys[j].sealed| <= MAX_SEALED
  {
    assert KeyFits(x, j, x.keys[j], x.bodies[j]);
  }

  lemma SealInBlock(cipher: Cipher, x: Ctx, j: nat)
    requires CtxValid(x) && j < x.k
    requires x.keys[j] == KeyAt(cipher, x.dir, Ctr(x, j), x.b, x.k, j, x.plains[j])
    ensures var o := SealStep(cipher, SenderAt(x, j), x.plains[j]);
      && o.Sealed? && o.key == x.keys[j] && o.next == SenderAt(x, j + 1)
      && |o.frames| == (if j + 1 < x.k then 1 else 2)
      && o.frames[0] == Marshal(DataFrame(x.b, x.k, j, x.bodies[j]))
      && (j + 1 == x.k ==> o.frames[1] == Marshal(ParityFrame(x.b, x.k, ParityOf(x, x.k))))
  {
    hide SealStep, Header, Marshal, DataBody;
    KeyForm(x, j);
    SealWithFec(cipher, x.dir, Ctr(x, j), x.b, x.k, j, ParityOf(x, j), x.plains[j]);
    ParityGrows(x.bodies, j);
  }

  // ---- One plaintext ----

  ghost function AfterSeal(x: Ctx, j: nat, l: Link): Link
    requires CtxValid(x) && j < x.k
  {
    l.(snd := SenderAt(x, j + 1), table := l.table[x.keys[j] := x.plains[j]], sent := l.sent + [x.plains[j]])
  }

  lemma SealKeepsLink(x: Ctx, j: nat, l: Link)
    requires CtxValid(x) && j < x.k && InBlock(x, j, l)
    ensures LinkHolds(x, j + 1, AfterSeal(x, j, l))
    ensures AllBelow(Counters(l.got), Ctr(x, j))
  {
    hide Collects, Delivered, Represents, Header, DataBody, Nonce, ParityOf;
    KeyForm(x, j);
    SealKeepsTable(l.table, x.keys[j], x.plains[j], x.dir, l.sent);
  }

  lemma CountersAppend(got: seq<Delivery>, d: Delivery)
    ensures Counters(got + [d]) == Counters(got) + {d.counter}
  {
  }

  lemma DeliveredNext(x: Ctx, j: nat, got: seq<Delivery>, d: Delivery)
    requires CtxValid(x) && j < x.k && j != x.drop && d.counter == Ctr(x, j)
    requires Delivered(x, j, got)
    ensures Delivered(x, j + 1, got + [d])
  {
    CountersAppend(got, d);
  }

  lemma DeliveredSkip(x: Ctx, j: nat, got: seq<Delivery>)
    requires CtxValid(x) && j < x.k && j == x.drop
    requires Delivered(x, j, got) && AllBelow(Counters(got), Ctr(x, j))
    ensures Delivered(x, j + 1, got)
  {
    assert Ctr(x, j) !in Counters(got);
  }

  /** What the receiver does with the genuine data frame j of the block. */
  lemma DataOpens(x: Ctx, j: nat, r: Receiver, table: Emitted, got: seq<Delivery>)
    requires CtxValid(x) && j < x.k
    requires r.fec && r.dir == x.dir && x.keys[j] in table
    requires Collects(x.b, x.k, Kept(x.bodies, j, x.drop), r.dec)
    requires Represents(r.replay, Counters(got)) && AllBelow(Counters(got), Ctr(x, j))
    ensures var (r', out) := OpenStep(r, table, Marshal(DataFrame(x.b, x.k, j, x.bodies[j])));
      && r'.fec && out == Ok([Delivery(Ctr(x, j), table[x.keys[j]])])
      && (j != x.drop ==> Collects(x.b, x.k, Kept(x.bodies, j + 1, x.drop), r'.dec))
  {
    KeyForm(x, j);
    CollectData(x.b, x.k, Kept(x.bodies, j, x.drop), r.dec, j, x.bodies[j]);
    OpenDataFrame(r, table, x.b, x.k, j, Ctr(x, j), x.keys[j].sealed, Counters(got));
  }

  /** The data frame arrives: its plaintext is delivered and its body collected. */
  lemma DataArrives(x: Ctx, j: nat, l: Link)
    requires CtxValid(x) && j < x.k && j != x.drop
    requires LinkHolds(x, j + 1, l) && l.snd == SenderAt(x, j + 1)
    requires Collects(x.b, x.k, Kept(x.bodies, j, x.drop), l.rcv.dec)
    requires Delivered(x, j, l.got) && AllBelow(Counters(l.got), Ctr(x, j))
    ensures InBlock(x, j + 1, Arrive(l, Marshal(DataFrame(x.b, x.k, j, x.bodies[j]))))
  {
    var datagram := Marshal(DataFrame(x.b, x.k, j, x.bodies[j]));
    DataOpens(x, j, l.rcv, l.table, l.got);
    var (r', out) := OpenStep(l.rcv, l.table, datagram);
    OpenKeeps(l.rcv, l.table, datagram, l.got, l.sent);
    DeliveredNext(x, j, l.got, out.value[0]);
  }

  // ---- The parity at the end of the block ----

  /** Whether the window still takes the lost counter when the whole block has been seen. */
  predicate InWindow(k: nat, drop: nat) {
    k - 1 - drop < 64
  }

  ghost predicate BlockDelivered(x: Ctx, got: seq<Delivery>)
    requires CtxValid(x)
  {
    && (forall i :: 0 <= i < x.k ==> (Ctr(x, i) in Counters(got) <==> i != x.drop || InWindow(x.k, i)))
    && (forall c: u64 :: c < x.base ==> (c in Counters(got) <==> c in x.before))
  }

  ghost predicate BlockFinished(x: Ctx, l: Link)
    requires CtxValid(x)
  {
    && LinkHolds(x, x.k, l)
    && l.snd == SenderAt(x, x.k)
    && DecValid(l.rcv.dec) && (l.rcv.dec.seen ==> l.rcv.dec.highest <= x.b)
    && BlockDelivered(x, l.got)
  }

  /** The largest counter of the block that was delivered decides whether the lost one is still in the window. */
  lemma LostCounterAccepted(x: Ctx, w: Window, got: seq<Delivery>)
    requires CtxValid(x) && x.drop < x.k
    requires Represents(w, Counters(got)) && Delivered(x, x.k, got) && AllBelow(Counters(got), x.base + x.k)
    ensures Accepts(w, Ctr(x, x.drop)) <==> InWindow(x.k, x.drop)
  {
    OfferRefines(w, Counters(got), Ctr(x, x.drop));
    var top := if x.drop == x.k - 1 then x.k - 2 else x.k - 1;
    assert Ctr(x, top) in Counters(got);
    assert Ctr(x, x.drop) !in Counters(got);
    assert w.last == Ctr(x, top);
  }

  lemma ParityArrives(x: Ctx, l: Link)
    requires CtxValid(x) && InBlock(x, x.k, l)
    ensures BlockFinished(x, Arrive(l, Marshal(ParityFrame(x.b, x.k, ParityOf(x, x.k)))))
  {
    var parity := ParityOf(x, x.k);
    var datagram := Marshal(ParityFrame(x.b, x.k, parity));
    OpenKeeps(l.rcv, l.table, datagram, l.got, l.sent);
    OpenParityFrame(l.rcv, l.table, x.b, x.k, parity);
    var (dec, rec) := AddParity(l.rcv.dec, x.b, x.k, parity);
    if x.drop == x.k {
      CollectParityFull(x.b, x.bodies, l.rcv.dec, parity);
      assert l.got + [] == l.got;
    } else {
      var s := Spec(x);
      KeptOthers(s);
      CollectParity(s, l.rcv.dec);
      RecoveryOf(s);
      KeyForm(x, x.drop);
      OpenRecoveredBody(l.rcv.(dec := dec), l.table, x.b, x.k, x.drop, Ctr(x, x.drop), x.keys[x.drop].sealed, |parity|);
      LostCounterAccepted(x, l.rcv.replay, l.got);
      assert l.got + [] == l.got;
      CountersAppend(l.got, Delivery(Ctr(x, x.drop), l.table[x.keys[x.drop]]));
    }
  }

  // ---- From one plaintext to whole runs ----

  /** The keys of the block are what the cipher makes of its plaintexts. */
  ghost predicate KeysOf(cipher: Cipher, x: Ctx)
    requires CtxValid(x)
  {
    forall j :: 0 <= j < x.k ==> x.keys[j] == KeyAt(cipher, x.dir, Ctr(x, j), x.b, x.k, j, x.plains[j])
  }

  /** SendOne inside a block: seal, the data frame unless lost, the parity at the end. */
  lemma SendInBlock(cipher: Cipher, x: Ctx, j: nat, l: Link)
    requires CtxValid(x) && KeysOf(cipher, x) && j < x.k && l.snd == SenderAt(x, j)
    ensures var l0 := AfterSeal(x, j, l);
      var l1 := if j == x.drop then l0 else Arrive(l0, Marshal(DataFrame(x.b, x.k, j, x.bodies[j])));
      SendOne(cipher, l, x.plains[j], j == x.drop)
      == if j + 1 < x.k then l1 else Arrive(l1, Marshal(ParityFrame(x.b, x.k, ParityOf(x, x.k))))
  {
    hide SealStep, Arrive, Marshal, CtxValid, KeyAt;
    SealInBlock(cipher, x, j);
  }

  lemma SendKeeps(cipher: Cipher, x: Ctx, j: nat, l: Link)
    requires CtxValid(x) && KeysOf(cipher, x) && j < x.k && InBlock(x, j, l)
    ensures var l' := SendOne(cipher, l, x.plains[j], j == x.drop);
            (if j + 1 < x.k then InBlock(x, j + 1, l') else BlockFinished(x, l')) && l'.sent == l.sent + [x.plains[j]]
  {
    hide SendOne, Arrive, Marshal, LinkHolds, Delivered, Collects, SenderAt, KeyFits;
    SendInBlock(cipher, x, j, l);
    SealKeepsLink(x, j, l);
    var l0 := AfterSeal(x, j, l);
    if j == x.drop {
      DeliveredSkip(x, j, l.got);
      assert InBlock(x, j + 1, l0);
    } else {
      DataArrives(x, j, l0);
    }
    if j + 1 == x.k {
      ParityArrives(x, if j == x.drop then l0 else Arrive(l0, Marshal(DataFrame(x.b, x.k, j, x.bodies[j]))));
    }
  }

  lemma {:induction false} SendFirstKeeps(cipher: Cipher, x: Ctx, l: Link, j: nat)
    requires CtxValid(x) && KeysOf(cipher, x) && j <= x.k && InBlock(x, 0, l)
    ensures var l' := SendFirst(cipher, l, Batch(x.plains, x.drop), j);
            (if j < x.k then InBlock(x, j, l') else BlockFinished(x, l')) && l'.sent == l.sent + x.plains[..j]
  {
    hide SendOne, InBlock, BlockFinished;
    if j > 0 {
      assert x.plains[..j] == x.plains[..j - 1] + [x.plains[j - 1]];
      SendFirstKeeps(cipher, x, l, j - 1);
      SendKeeps(cipher, x, j - 1, SendFirst(cipher, l, Batch(x.plains, x.drop), j - 1));
    }
  }

  ghost predicate Fits(cipher: Cipher, plain: seq<byte>) {
    forall n: seq<byte>, aad: seq<byte> :: |cipher(n, plain, aad)| <= MAX_SEALED
  }

  ghost predicate BatchesValid(cipher: Cipher, k: u8, blks: seq<Batch>) {
    && |blks| <= 0x1_0000_0000
    && forall b :: 0 <= b < |blks| ==>
         |blks[b].plains| == k && blks[b].drop <= k && forall i :: 0 <= i < k ==> Fits(cipher, blks[b].plains[i])
  }

  lemma MulMono(a: nat, b: nat, c: nat)
    requires a <= b
    ensures a * c <= b * c
  {
  }

  lemma CounterBound(b: nat, k: nat)
    requires b < 0x1_0000_0000 && k <= 255
    ensures (b + 1) * k == b * k + k <= REKEY_AFTER
  {
    MulMono(b + 1, 0x1_0000_0000, k);
    MulMono(k, 255, 0x1_0000_0000);
  }

  ghost function CtxFor(cipher: Cipher, k: u8, dir: byte, b: u32, blk: Batch, before: set<u64>): Ctx
    requires b * k + k <= REKEY_AFTER && |blk.plains| == k
  {
    var keys := seq(k, i requires 0 <= i < k => KeyAt(cipher, dir, b * k + i, b, k, i, blk.plains[i]));
    var bodies := seq(k, i requires 0 <= i < k => DataBody(b * k + i, keys[i].sealed));
    Ctx(k, dir, b, b * k, blk.plains, keys, bodies, blk.drop, before)
  }

  lemma CtxForValid(cipher: Cipher, k: u8, dir: byte, b: u32, blk: Batch, before: set<u64>)
    requires 2 <= k && b * k + k <= REKEY_AFTER && |blk.plains| == k && blk.drop <= k
    requires forall i :: 0 <= i < k ==> Fits(cipher, blk.plains[i])
    ensures var x := CtxFor(cipher, k, dir, b, blk, before);
            CtxValid(x) && KeysOf(cipher, x)
  {
    var x := CtxFor(cipher, k, dir, b, blk, before);
    forall i | 0 <= i < k
      ensures KeyFits(x, i, x.keys[i], x.bodies[i])
    {
      assert Fits(cipher, blk.plains[i]);
    }
  }

  ghost function AllPlains(blks: seq<Batch>): seq<seq<byte>> {
    if blks == [] then [] else AllPlains(blks[..|blks| - 1]) + blks[|blks| - 1].plains
  }

  /** Between blocks: everything of the last is settled and the next slot is (n, 0). */
  ghost predicate Settled(k: u8, dir: byte, n: nat, sent: seq<seq<byte>>, l: Link) {
    && |sent| == n * k && |sent| <= REKEY_AFTER
    && l.snd == Sender(dir, |sent|, Enc(k, n % 0x1_0000_0000, 0, []))
    && l.sent == sent
    && TableHolds(l.table, dir, l.sent)
    && ReceiverHolds(l.rcv, dir, l.got, l.sent) && l.rcv.fec
    && DecValid(l.rcv.dec) && (l.rcv.dec.seen ==> l.rcv.dec.highest < n)
  }

  function CounterAt(b: nat, k: u8, i: nat): nat {
    b * k + i
  }

  /** Which plaintexts of block b come out: all that arrived, and the lost one if the window still takes it. */
  ghost predicate BlockRepaired(k: u8, b: nat, drop: nat, got: seq<Delivery>) {
    forall i :: 0 <= i < k ==> (CounterAt(b, k, i) in Counters(got) <==> i != drop || InWindow(k, i))
  }

  ghost predicate Repaired(k: u8, blks: seq<Batch>, got: seq<Delivery>) {
    forall b :: 0 <= b < |blks| ==> BlockRepaired(k, b, blks[b].drop, got)
  }

  lemma BlockStarts(cipher: Cipher, k: u8, dir: byte, n: u32, blk: Batch, sent: seq<seq<byte>>, l: Link)
    requires 2 <= k && n * k + k <= REKEY_AFTER && |blk.plains| == k && blk.drop <= k
    requires CtxValid(CtxFor(cipher, k, dir, n, blk, Counters(l.got)))
    requires Settled(k, dir, n, sent, l)
    ensures InBlock(CtxFor(cipher, k, dir, n, blk, Counters(l.got)), 0, l)
  {
    XorAllNone(256);
  }

  lemma EarlierBlock(k: u8, b: nat, n: nat, drop: nat, got: seq<Delivery>, got': seq<Delivery>)
    requires b < n && n * k < REKEY_AFTER && BlockRepaired(k, b, drop, got)
    requires forall c: u64 :: c < n * k ==> (c in Counters(got') <==> c in Counters(got))
    ensures BlockRepaired(k, b, drop, got')
  {
    MulMono(b + 1, n, k);
    forall i | 0 <= i < k
      ensures CounterAt(b, k, i) in Counters(got') <==> i != drop || InWindow(k, i)
    {
      var c: u64 := CounterAt(b, k, i);
      assert c in Counters(got') <==> c in Counters(got);
    }
  }

  lemma EarlierBlocks(k: u8, blks: seq<Batch>, got: seq<Delivery>, got': seq<Delivery>)
    requires |blks| * k < REKEY_AFTER && Repaired(k, blks, got)
    requires forall c: u64 :: c < |blks| * k ==> (c in Counters(got') <==> c in Counters(got))
    ensures Repaired(k, blks, got')
  {
    hide BlockRepaired, Counters;
    forall b | 0 <= b < |blks|
      ensures BlockRepaired(k, b, blks[b].drop, got')
    {
      EarlierBlock(k, b, |blks|, blks[b].drop, got, got');
    }
  }

  lemma LastBlock(x: Ctx, got: seq<Delivery>)
    requires CtxValid(x) && BlockDelivered(x, got) && x.base == x.b * x.k
    ensures BlockRepaired(x.k, x.b, x.drop, got)
  {
    forall i | 0 <= i < x.k
      ensures CounterAt(x.b, x.k, i) in Counters(got) <==> i != x.drop || InWindow(x.k, i)
    {
      assert Ctr(x, i) == CounterAt(x.b, x.k, i);
    }
  }

  /** One more block: it settles, it is repaired, and earlier counters stay as they are. */
  lemma BlockKeeps(cipher: Cipher, k: u8, dir: byte, n: u32, blk: Batch, sent: seq<seq<byte>>, l: Link)
    requires 2 <= k && |blk.plains| == k && blk.drop <= k && Settled(k, dir, n, sent, l)
    requires forall i :: 0 <= i < k ==> Fits(cipher, blk.plains[i])
    ensures var l' := SendFirst(cipher, l, blk, k);
      && Settled(k, dir, n + 1, sent + blk.plains, l')
      && BlockRepaired(k, n, blk.drop, l'.got)
      && (forall c: u64 :: c < n * k ==> (c in Counters(l'.got) <==> c in Counters(l.got)))
  {
    hide SendFirst, CtxValid, KeysOf;
    CounterBound(n, k);
    CtxForValid(cipher, k, dir, n, blk, Counters(l.got));
    var x := CtxFor(cipher, k, dir, n, blk, Counters(l.got));
    BlockStarts(cipher, k, dir, n, blk, sent, l);
    SendFirstKeeps(cipher, x, l, k);
    assert Batch(x.plains, x.drop) == blk && blk.plains[..k] == blk.plains;
    LastBlock(x, SendFirst(cipher, l, blk, k).got);
  }

  lemma NothingSent(k: u8, dir: byte)
    requires 2 <= k
    ensures Settled(k, dir, 0, [], NewLink(k, dir))
  {
  }

  lemma {:induction false} SendBlocksKeeps(cipher: Cipher, k: u8, dir: byte, blks: seq<Batch>)
    requires 2 <= k && BatchesValid(cipher, k, blks)
    ensures var l := SendBlocks(cipher, NewLink(k, dir), blks);
            Settled(k, dir, |blks|, AllPlains(blks), l) && Repaired(k, blks, l.got)
  {
    hide SendFirst, BlockRepaired, Fits, Counters;
    if blks == [] {
      NothingSent(k, dir);
    } else {
      var n := |blks| - 1;
      var init, last := blks[..n], blks[n];
      SendBlocksKeeps(cipher, k, dir, init);
      var l := SendBlocks(cipher, NewLink(k, dir), init);
      BlockKeeps(cipher, k, dir, n, last, AllPlains(init), l);
      var l' := SendFirst(cipher, l, last, k);
      EarlierBlocks(k, init, l.got, l'.got);
      assert forall b :: 0 <= b < n ==> blks[b] == init[b];
    }
  }

  // ---- Main results ----

  /**
   * For every block size 2 <= k <= 255 and every choice of at most one lost data frame per block, exactly these
   * plaintexts are delivered, each once: all that arrived, and a lost one unless 64 later frames of its block did.
   */
  lemma FecRepairsExactly(cipher: Cipher, k: u8, dir: byte, blks: seq<Batch>)
    requires 2 <= k && BatchesValid(cipher, k, blks)
    ensures var got := SendBlocks(cipher, NewLink(k, dir), blks).got;
            Genuine(got, AllPlains(blks)) && AtMostOnce(got) && Repaired(k, blks, got)
  {
    SendBlocksKeeps(cipher, k, dir, blks);
  }

  lemma {:induction false} EveryOneOnce(got: seq<Delivery>, sent: seq<seq<byte>>)
    requires Genuine(got, sent) && AtMostOnce(got) && |sent| <= REKEY_AFTER
    requires forall c: u64 :: c < |sent| ==> c in Counters(got)
    ensures multiset(Plains(got)) == multiset(sent)
    decreases |sent|
  {
    if sent == [] {
      if got != [] {
        SomethingSent(got, sent);
        assert false;
      }
    } else {
      var n: u64 := |sent| - 1;
      assert n in Counters(got);
      var i :| 0 <= i < |got| && got[i].counter == n;
      DropLast(got, sent, i);
      forall c: u64 | c < n
        ensures c in Counters(Without(got, i))
      {
        OtherCounter(got, i, c);
      }
      hide Counters, Genuine, AtMostOnce, Without, Plains;
      EveryOneOnce(Without(got, i), sent[..n]);
      PlainsWithout(got, i);
      assert sent == sent[..n] + [sent[n]];
    }
  }

  lemma SomethingSent(got: seq<Delivery>, sent: seq<seq<byte>>)
    requires Genuine(got, sent) && got != []
    ensures sent != []
  {
    assert got[0].counter < |sent|;
  }

  lemma OtherCounter(got: seq<Delivery>, i: nat, c: u64)
    requires i < |got| && c in Counters(got) && c != got[i].counter
    ensures c in Counters(Without(got, i))
  {
    var j :| 0 <= j < |got| && got[j].counter == c;
    WithoutMembers(got, i, got[j]);
  }

  lemma EveryCounter(k: u8, blks: seq<Batch>, got: seq<Delivery>, c: u64)
    requires 2 <= k <= 64 && Repaired(k, blks, got) && c < |blks| * k
    ensures c in Counters(got)
  {
    InBlockOf(c, k, |blks|);
    var b, i := c / k, c % k;
    assert c == CounterAt(b, k, i);
    hide Counters, CounterAt;
    assert BlockRepaired(k, b, blks[b].drop, got);
  }

  lemma InBlockOf(c: nat, k: nat, n: nat)
    requires k > 0 && c < n * k
    ensures c / k < n && c == c / k * k + c % k
  {
    if c / k >= n {
      MulMono(n, c / k, k);
    }
  }

  /** Up to k == 64 nothing is lost: the receiver delivers every sealed plaintext exactly once. */
  lemma FecComplete(cipher: Cipher, k: u8, dir: byte, blks: seq<Batch>)
    requires 2 <= k <= 64 && BatchesValid(cipher, k, blks)
    ensures var got := SendBlocks(cipher, NewLink(k, dir), blks).got;
            AtMostOnce(got) && multiset(Plains(got)) == multiset(AllPlains(blks))
  {
    SendBlocksKeeps(cipher, k, dir, blks);
    var got := SendBlocks(cipher, NewLink(k, dir), blks).got;
    forall c: u64 | c < |AllPlains(blks)|
      ensures c in Counters(got)
    {
      EveryCounter(k, blks, got, c);
    }
    EveryOneOnce(got, AllPlains(blks));
  }

  /** Beyond it the repair fails: the first plaintext of a block is gone when its frame is lost. */
  lemma FirstLostBeyondWindow(cipher: Cipher, k: u8, dir: byte, blk: Batch)
    requires k > 64 && BatchesValid(cipher, k, [blk]) && blk.drop == 0
    ensures forall d :: d in SendBlocks(cipher, NewLink(k, dir), [blk]).got ==> d.counter != 0
  {
    SendBlocksKeeps(cipher, k, dir, [blk]);
    var got := SendBlocks(cipher, NewLink(k, dir), [blk]).got;
    assert [blk][0].drop == 0;
    assert BlockRepaired(k, 0, 0, got);
    assert CounterAt(0, k, 0) == 0;
  }
}
