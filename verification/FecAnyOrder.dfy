/**
 * Loss repair in any arrival order, from sealing to delivery: whether the lost plaintext of a block comes out when the
 * parity and the other data frames have arrived, in whatever order and among whatever else.
 */
module FecAnyOrder {
  import opened Bytes
  import opened Replay
  import opened Frame
  import opened Fec
  import opened Sequences
  import opened Session
  import opened SessionRuns
  import F = FecRecovery
  import E = FecEndToEnd

  /** What a datagram gives the receiver's FEC decoder: a data body only when the replay window took its counter. */
  ghost function FedBy(r: Receiver, table: Emitted, datagram: seq<byte>): seq<F.Event> {
    match ParseFrame(datagram)
    case Err(_) => []
    case Ok(f) =>
      if !r.fec then []
      else if f.typ != TYPE_DATA then [F.ParityIn(f.blockID, f.k, f.body)]
      else if OpenBody(r, table, f.body, datagram[..FRAME_HEADER_LEN]).1 == [] then []
      else [F.DataIn(f.blockID, f.k, f.index, f.body)]
  }

  /** What a run has given the decoder at b. */
  ghost function FedToB(u: Setup, events: seq<Event>): seq<F.Event> {
    if events == [] then [] else
    var init, last := events[..|events| - 1], events[|events| - 1];
    FedToB(u, init)
    + if last.ArriveAtB? then FedBy(Run(u, init).b.rcv, Run(u, init).table, last.datagram) else []
  }

  /** The receiver once the frame itself has been dealt with, and what the frame itself delivered. */
  ghost function Direct(r: Receiver, table: Emitted, datagram: seq<byte>): (Receiver, seq<Delivery>) {
    match ParseFrame(datagram)
    case Err(_) => (r, [])
    case Ok(f) =>
      if f.typ != TYPE_DATA then (r, []) else OpenBody(r, table, f.body, datagram[..FRAME_HEADER_LEN])
  }

  /** Opening a datagram is dealing with the frame itself, then feeding the decoder and opening what it recovers. */
  lemma OpenIsDirectThenFeed(r: Receiver, table: Emitted, datagram: seq<byte>)
    requires r.fec
    ensures var (r1, first) := Direct(r, table, datagram);
      var (r', out) := OpenStep(r, table, datagram);
      var got, fed := if out.Ok? then out.value else [], FedBy(r, table, datagram);
      && r1.dec == r.dec && r1.fec && r1.dir == r'.dir == r.dir
      && (fed == [] ==> r' == r && got == [] == first)
      && (fed != [] ==>
            && |fed| == 1
            && var (dec, rec) := F.Feed(r.dec, fed[0]);
              && r' == OpenRecovered(r1.(dec := dec), table, rec, fed[0].id, fed[0].k).0 && r'.dec == dec && r'.fec
              && got == first + OpenRecovered(r1.(dec := dec), table, rec, fed[0].id, fed[0].k).1)
  {
    hide ParseFrame, ParseDataBody, Accepts, Offer, AddData, AddParity, Nonce, Header;
    var parsed := ParseFrame(datagram);
    if parsed.Ok? && parsed.value.typ != TYPE_DATA {
      var f := parsed.value;
      var (dec, rec) := AddParity(r.dec, f.blockID, f.k, f.body);
      var more := OpenRecovered(r.(dec := dec), table, rec, f.blockID, f.k).1;
      assert [] + more == more;
    }
  }

  lemma FeedAppend(fed: seq<F.Event>, x: F.Event)
    ensures F.Run(fed + [x]) == F.Feed(F.Run(fed), x).0
  {
    var after := fed + [x];
    assert after[..|after| - 1] == fed && after[|after| - 1] == x;
  }

  /** How the decoder goes on with a datagram. */
  lemma DecoderStep(r: Receiver, table: Emitted, datagram: seq<byte>, fed: seq<F.Event>)
    requires r.fec && r.dec == F.Run(fed)
    ensures var r' := OpenStep(r, table, datagram).0;
      r'.fec && r'.dir == r.dir && r'.dec == F.Run(fed + FedBy(r, table, datagram))
  {
    hide OpenStep, FedBy, Direct, OpenRecovered, F.Feed, F.Run;
    OpenIsDirectThenFeed(r, table, datagram);
    var more := FedBy(r, table, datagram);
    if more == [] {
      assert fed + more == fed;
    } else {
      assert more == [more[0]];
      FeedAppend(fed, more[0]);
    }
  }

  lemma {:induction false} DecoderRuns(u: Setup, events: seq<Event>)
    requires Enabled(u.fecKB)
    ensures var r := Run(u, events).b.rcv;
      r.fec && r.dir == u.dirA && r.dec == F.Run(FedToB(u, events))
  {
    if events != [] {
      hide OpenStep, FedBy, SealStep, F.Run;
      var init, last := events[..|events| - 1], events[|events| - 1];
      DecoderRuns(u, init);
      if last.ArriveAtB? {
        var w := Run(u, init);
        DecoderStep(w.b.rcv, w.table, last.datagram, FedToB(u, init));
      } else {
        assert FedToB(u, events) == FedToB(u, init);
      }
    }
  }

  // ---- One record per nonce ----

  ghost predicate OnePerNonce(table: Emitted) {
    forall x, y :: x in table && y in table && x.nonce == y.nonce ==> x == y
  }

  lemma SealKeepsOne(cipher: Cipher, s: Sender, table: Emitted, plain: seq<byte>, sent: seq<seq<byte>>)
    requires OnePerNonce(table) && SealStep(cipher, s, plain).Sealed?
    requires TableHolds(table, s.dir, sent) && s.ctr == |sent|
    ensures OnePerNonce(table[SealStep(cipher, s, plain).key := plain])
  {
    SealedFrames(cipher, s, plain);
    var key := SealStep(cipher, s, plain).key;
    hide SealStep, Nonce;
    assert forall x :: x in table ==> x.nonce != key.nonce;
  }

  lemma {:induction false} RunKeepsOne(u: Setup, events: seq<Event>)
    requires u.dirA != u.dirB
    ensures OnePerNonce(Run(u, events).table)
    ensures events != [] ==> Run(u, events[..|events| - 1]).table.Keys <= Run(u, events).table.Keys
  {
    if events != [] {
      hide OpenStep, SealStep, OnePerNonce;
      var init, last := events[..|events| - 1], events[|events| - 1];
      RunKeepsOne(u, init);
      RunKeepsInv(u, init);
      var w := Run(u, init);
      if last.SealAtA? && SealStep(u.cipher, w.a.snd, last.plain).Sealed? {
        SealKeepsOne(u.cipher, w.a.snd, w.table, last.plain, w.a.sent);
      } else if last.SealAtB? && SealStep(u.cipher, w.b.snd, last.plain).Sealed? {
        SealKeepsOne(u.cipher, w.b.snd, w.table, last.plain, w.b.sent);
      }
    } else {
      assert Run(u, events).table == map[];
    }
  }

  // ---- The lost counter is not delivered before the block is complete ----

  /** The record of a block's lost frame. */
  ghost function LostKey(s: F.BlockSpec, dir: byte, ctr: u64, sealed: seq<byte>): Lookup
    requires F.SpecValid(s)
  {
    Lookup(Nonce(dir, ctr), Header(TYPE_DATA, s.id, s.missing, F.K(s)), sealed)
  }

  lemma HeaderFieldsOf(id: u32, i: u8, k: u8, id': u32, i': u8, k': u8)
    requires Header(TYPE_DATA, id, i, k) == Header(TYPE_DATA, id', i', k')
    ensures id == id' && i == i' && k == k'
  {
    var f, f' := Frame(TYPE_DATA, id, i, k, []), Frame(TYPE_DATA, id', i', k', []);
    ParseMarshal(f);
    ParseMarshal(f');
    assert Marshal(f) == Marshal(f');
  }

  /** Nothing authenticated under another header carries the lost counter. */
  lemma OtherHeader(r: Receiver, table: Emitted, body: seq<byte>, aad: seq<byte>, all: Emitted, key: Lookup, ctr: u64)
    requires table.Keys <= all.Keys && OnePerNonce(all) && key in all && key.nonce == Nonce(r.dir, ctr)
    requires aad != key.aad
    ensures ctr !in Counters(OpenBody(r, table, body, aad).1)
  {
    hide ParseDataBody, Nonce, Accepts, Offer;
    var p := ParseDataBody(body);
    if p.Ok? && p.value.counter == ctr {
      assert Lookup(Nonce(r.dir, ctr), aad, p.value.sealed) !in all;
    }
  }

  /** What is fed for the block is not the lost frame. */
  ghost predicate NotLost(s: F.BlockSpec, fed: seq<F.Event>)
    requires F.SpecValid(s)
  {
    forall x :: x in fed && x.id == s.id && x.k == F.K(s) && x.DataIn? ==> x.index != s.missing
  }

  lemma FirstIsOther(r: Receiver, table: Emitted, datagram: seq<byte>, s: F.BlockSpec, all: Emitted, key: Lookup,
                     ctr: u64, sealed: seq<byte>)
    requires r.fec && F.SpecValid(s) && table.Keys <= all.Keys && OnePerNonce(all) && key in all
    requires key == LostKey(s, r.dir, ctr, sealed) && NotLost(s, FedBy(r, table, datagram))
    ensures ctr !in Counters(Direct(r, table, datagram).1)
  {
    hide OpenBody, Header, Nonce, OnePerNonce;
    var parsed := ParseFrame(datagram);
    if parsed.Ok? && parsed.value.typ == TYPE_DATA {
      var f := parsed.value;
      MarshalParse(datagram);
      hide ParseFrame;
      var aad := datagram[..FRAME_HEADER_LEN];
      if OpenBody(r, table, f.body, aad).1 != [] {
        var x := F.DataIn(f.blockID, f.k, f.index, f.body);
        assert x in FedBy(r, table, datagram);
        if aad == key.aad {
          HeaderFieldsOf(f.blockID, f.index, f.k, s.id, s.missing, F.K(s));
          assert false;
        }
        OtherHeader(r, table, f.body, aad, all, key, ctr);
      }
    }
  }

  lemma MoreIsOther(r: Receiver, table: Emitted, rec: Option<Recovered>, id: u32, k: u8, s: F.BlockSpec, all: Emitted,
                    key: Lookup, ctr: u64, sealed: seq<byte>)
    requires F.SpecValid(s) && table.Keys <= all.Keys && OnePerNonce(all) && key in all
    requires key == LostKey(s, r.dir, ctr, sealed) && (rec.Some? ==> id != s.id)
    ensures ctr !in Counters(OpenRecovered(r, table, rec, id, k).1)
  {
    hide OpenBody, Nonce, OnePerNonce;
    if rec.Some? {
      var aad := Header(TYPE_DATA, id, rec.value.index, k);
      if aad == key.aad {
        HeaderFieldsOf(id, rec.value.index, k, s.id, s.missing, F.K(s));
        assert false;
      }
      OtherHeader(r, table, rec.value.body, aad, all, key, ctr);
    }
  }

  /** An event of the block recovers when it completes the block, and then the lost body; otherwise nothing. */
  lemma RecoversNow(s: F.BlockSpec, fed: seq<F.Event>, x: F.Event)
    requires F.SpecValid(s) && F.Feeds(s, fed + [x]) && x.id == s.id && !F.AllFed(s, fed)
    ensures F.Feeds(s, fed) && NotLost(s, [x])
    ensures F.Feed(F.Run(fed), x).1 == if F.AllFed(s, fed + [x]) then Some(F.TheRecovery(s)) else None
  {
    hide F.Feed, F.Run, F.TheRecovery, F.AllFed, F.Arrived, F.ParityArrived, F.Complete;
    var after := fed + [x];
    assert after[..|after| - 1] == fed && after[|after| - 1] == x;
    F.AllFedIsComplete(s, fed);
    F.AllFedIsComplete(s, after);
    F.TracksRun(s, fed);
    F.TracksRun(s, after);
    var rec := F.Feed(F.Run(fed), x).1;
    assert F.Recoveries(fed, s.id) == [];
    assert F.Recoveries(after, s.id) == [] + if rec.Some? then [rec.value] else [];
    if rec.Some? {
      assert F.Recoveries(after, s.id)[0] == rec.value;
    }
  }

  lemma CountersOf(got: seq<Delivery>, more: seq<Delivery>)
    ensures Counters(got + more) == Counters(got) + Counters(more)
  {
  }

  /** A datagram that does not complete the block does not bring the lost counter. */
  lemma NotByThis(r: Receiver, table: Emitted, datagram: seq<byte>, fed: seq<F.Event>, s: F.BlockSpec, all: Emitted,
                  key: Lookup, ctr: u64, sealed: seq<byte>)
    requires r.fec && r.dec == F.Run(fed) && F.SpecValid(s)
    requires F.Feeds(s, fed + FedBy(r, table, datagram)) && !F.AllFed(s, fed + FedBy(r, table, datagram))
    requires table.Keys <= all.Keys && OnePerNonce(all) && key in all && key == LostKey(s, r.dir, ctr, sealed)
    ensures var out := OpenStep(r, table, datagram).1; out.Ok? ==> ctr !in Counters(out.value)
    ensures F.Feeds(s, fed) && !F.AllFed(s, fed)
  {
    hide OpenStep, FedBy, Direct, OpenRecovered, OnePerNonce, F.Feed, F.Run, LostKey;
    OpenIsDirectThenFeed(r, table, datagram);
    var more := FedBy(r, table, datagram);
    if more == [] {
      assert fed + more == fed;
    } else {
      var x := more[0];
      assert more == [x];
      LessFed(s, fed, x);
      hide F.AllFed;
      if x.id == s.id {
        RecoversNow(s, fed, x);
      }
      FirstIsOther(r, table, datagram, s, all, key, ctr, sealed);
      var (r1, first) := Direct(r, table, datagram);
      var (dec, rec) := F.Feed(r.dec, x);
      MoreIsOther(r1.(dec := dec), table, rec, x.id, x.k, s, all, key, ctr, sealed);
      CountersOf(first, OpenRecovered(r1.(dec := dec), table, rec, x.id, x.k).1);
    }
  }

  lemma LessFed(s: F.BlockSpec, fed: seq<F.Event>, x: F.Event)
    requires F.SpecValid(s) && F.Feeds(s, fed + [x])
    ensures F.Feeds(s, fed) && (F.AllFed(s, fed) ==> F.AllFed(s, fed + [x]))
  {
    var after := fed + [x];
    assert after[..|after| - 1] == fed && after[|after| - 1] == x;
  }

  lemma {:induction false} NotBefore(u: Setup, events: seq<Event>, s: F.BlockSpec, all: Emitted, ctr: u64,
                                     sealed: seq<byte>)
    requires u.dirA != u.dirB && Enabled(u.fecKB) && F.SpecValid(s)
    requires F.Feeds(s, FedToB(u, events)) && !F.AllFed(s, FedToB(u, events))
    requires Run(u, events).table.Keys <= all.Keys && OnePerNonce(all) && LostKey(s, u.dirA, ctr, sealed) in all
    ensures ctr !in Counters(Run(u, events).b.got)
  {
    if events == [] {
      assert Run(u, events).b.got == [];
    } else {
      hide OpenStep, FedBy, SealStep, F.AllFed, OnePerNonce, F.Run, F.Feeds, LostKey;
      var init, last := events[..|events| - 1], events[|events| - 1];
      DecoderRuns(u, init);
      RunKeepsOne(u, events);
      var w := Run(u, init);
      if last.ArriveAtB? {
        var key := LostKey(s, u.dirA, ctr, sealed);
        NotByThis(w.b.rcv, w.table, last.datagram, FedToB(u, init), s, all, key, ctr, sealed);
        NotBefore(u, init, s, all, ctr, sealed);
        var out := OpenStep(w.b.rcv, w.table, last.datagram).1;
        CountersOf(w.b.got, if out.Ok? then out.value else []);
      } else {
        assert FedToB(u, events) == FedToB(u, init);
        NotBefore(u, init, s, all, ctr, sealed);
        assert Run(u, events).b.got == w.b.got;
      }
    }
  }

  // ---- Main result ----

  lemma BroughtUnlessBehind(w: Window, got: seq<Delivery>, last: seq<Delivery>, ctr: u64, plain: seq<byte>)
    requires Represents(w, Counters(got)) && ctr !in Counters(got)
    requires last == if Accepts(w, ctr) then [Delivery(ctr, plain)] else []
    ensures var after := Counters(got + last);
      ctr in after <==> forall c :: c in after && c != ctr ==> c < ctr + 64
  {
    hide Represents, Accepts;
    AcceptsMeaning(w, Counters(got), ctr);
    CountersOf(got, last);
    OneCounter(ctr, plain);
    if Accepts(w, ctr) {
      assert Counters(got + last) == Counters(got) + {ctr};
    } else {
      assert got + last == got;
    }
  }

  lemma OneCounter(ctr: u64, plain: seq<byte>)
    ensures Counters([Delivery(ctr, plain)]) == {ctr} && Counters([]) == {}
  {
  }

  /** Whether a datagram that completes the block brings the lost counter. */
  lemma ByThis(r: Receiver, table: Emitted, datagram: seq<byte>, fed: seq<F.Event>, s: F.BlockSpec, key: Lookup,
               ctr: u64, sealed: seq<byte>, got: seq<Delivery>, sent: seq<seq<byte>>)
    requires r.fec && r.dec == F.Run(fed) && F.SpecValid(s)
    requires F.Feeds(s, fed + FedBy(r, table, datagram))
    requires F.AllFed(s, fed + FedBy(r, table, datagram)) && !F.AllFed(s, fed)
    requires OnePerNonce(table) && key in table && key == LostKey(s, r.dir, ctr, sealed)
    requires |sealed| <= MAX_SEALED && s.bodies[s.missing] == DataBody(ctr, sealed)
    requires ReceiverHolds(r, r.dir, got, sent) && TableHolds(table, r.dir, sent) && ctr !in Counters(got)
    ensures var out := OpenStep(r, table, datagram).1;
      var after := Counters(got + if out.Ok? then out.value else []);
      ctr in after <==> forall c :: c in after && c != ctr ==> c < ctr + 64
  {
    hide OpenStep, FedBy, Direct, OpenRecovered, OnePerNonce, ReceiverHolds, TableHolds, Counters, Represents, Accepts;
    hide F.Feed, F.Run, F.Feeds, F.Parity, F.TheRecovery, DataBody, F.AllFed, LostKey;
    OpenIsDirectThenFeed(r, table, datagram);
    var (r1, first) := Direct(r, table, datagram);
    var more := FedBy(r, table, datagram);
    SomethingFed(s, fed, more);
    var x := more[0];
    assert more == [x];
    OwnCompletes(s, fed, x);
    RecoversNow(s, fed, x);
    FirstIsOther(r, table, datagram, s, table, key, ctr, sealed);
    DirectKeeps(r, table, datagram, got, sent);
    CountersOf(got, first);
    var (dec, rec) := F.Feed(r.dec, x);
    var last := OpenRecovered(r1.(dec := dec), table, rec, x.id, x.k).1;
    LostBodyOpens(r1.(dec := dec), table, s, key, ctr, sealed);
    assert got + (first + last) == got + first + last;
    BroughtUnlessBehind(r1.replay, got + first, last, ctr, table[key]);
  }

  lemma SomethingFed(s: F.BlockSpec, fed: seq<F.Event>, more: seq<F.Event>)
    requires F.SpecValid(s) && F.AllFed(s, fed + more) && !F.AllFed(s, fed)
    ensures more != []
  {
    hide F.AllFed;
    assert fed + [] == fed;
  }

  /** The recovered body is opened like the frame that was lost. */
  lemma LostBodyOpens(r: Receiver, table: Emitted, s: F.BlockSpec, key: Lookup, ctr: u64, sealed: seq<byte>)
    requires F.SpecValid(s) && key == LostKey(s, r.dir, ctr, sealed) && key in table
    requires |sealed| <= MAX_SEALED && s.bodies[s.missing] == DataBody(ctr, sealed)
    ensures OpenRecovered(r, table, Some(F.TheRecovery(s)), s.id, F.K(s)).1
         == if Accepts(r.replay, ctr) then [Delivery(ctr, table[key])] else []
  {
    hide OpenRecovered, F.Parity, DataBody, Header, Nonce, Accepts;
    F.RecoveryOf(s);
    E.OpenRecoveredBody(r, table, s.id, F.K(s), s.missing, ctr, sealed, |F.Parity(s)|);
  }

  lemma DirectKeeps(r: Receiver, table: Emitted, datagram: seq<byte>, got: seq<Delivery>, sent: seq<seq<byte>>)
    requires ReceiverHolds(r, r.dir, got, sent) && TableHolds(table, r.dir, sent)
    ensures var (r1, first) := Direct(r, table, datagram);
      Represents(r1.replay, Counters(got + first))
  {
    hide OpenBody, TableHolds;
    var parsed := ParseFrame(datagram);
    if parsed.Ok? && parsed.value.typ == TYPE_DATA {
      OpenBodyKeeps(r, table, parsed.value.body, datagram[..FRAME_HEADER_LEN], got, sent);
    } else {
      assert got + [] == got;
    }
  }

  /** Only an event of the block completes it. */
  lemma OwnCompletes(s: F.BlockSpec, fed: seq<F.Event>, x: F.Event)
    requires F.SpecValid(s) && F.Feeds(s, fed + [x]) && F.AllFed(s, fed + [x]) && !F.AllFed(s, fed)
    ensures x.id == s.id && x.k == F.K(s)
  {
    hide F.Parity;
    var after := fed + [x];
    assert after[..|after| - 1] == fed && after[|after| - 1] == x;
    if x.id != s.id {
      assert false;
    }
  }

  /**
   * Whatever the network does before, and in whatever order the parity and all data frames of a block but one have
   * arrived: with the last of them the lost plaintext comes out if and only if its counter is less than 64 behind
   * every counter accepted by then.
   */
  lemma AnyOrderDelivery(u: Setup, before: seq<Event>, datagram: seq<byte>, s: F.BlockSpec, ctr: u64,
                         sealed: seq<byte>)
    requires u.dirA != u.dirB && Enabled(u.fecKB) && F.SpecValid(s)
    requires |sealed| <= MAX_SEALED && s.bodies[s.missing] == DataBody(ctr, sealed)
    requires LostKey(s, u.dirA, ctr, sealed) in Run(u, before).table
    requires var fed := FedToB(u, before + [ArriveAtB(datagram)]);
      F.Feeds(s, fed) && F.AllFed(s, fed) && !F.AllFed(s, FedToB(u, before))
    ensures var after := Counters(Run(u, before + [ArriveAtB(datagram)]).b.got);
      ctr in after <==> forall c :: c in after && c != ctr ==> c < ctr + 64
  {
    hide OpenStep, FedBy, SealStep, F.AllFed, OnePerNonce, F.Run, F.Feeds, LostKey, Counters;
    var events := before + [ArriveAtB(datagram)];
    assert events[..|events| - 1] == before && events[|events| - 1] == ArriveAtB(datagram);
    var w := Run(u, before);
    var key := LostKey(s, u.dirA, ctr, sealed);
    DecoderRuns(u, before);
    RunKeepsOne(u, before);
    RunKeepsInv(u, before);
    FeedsBefore(s, FedToB(u, before), FedBy(w.b.rcv, w.table, datagram));
    NotBefore(u, before, s, w.table, ctr, sealed);
    ByThis(w.b.rcv, w.table, datagram, FedToB(u, before), s, key, ctr, sealed, w.b.got, w.a.sent);
  }

  lemma {:induction false} FeedsBefore(s: F.BlockSpec, fed: seq<F.Event>, more: seq<F.Event>)
    requires F.SpecValid(s) && F.Feeds(s, fed + more)
    ensures F.Feeds(s, fed)
    decreases |more|
  {
    if more == [] {
      assert fed + more == fed;
    } else {
      var init := more[..|more| - 1];
      assert (fed + more)[..|fed + more| - 1] == fed + init;
      FeedsBefore(s, fed, init);
    }
  }
}
