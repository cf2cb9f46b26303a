/** XOR recovery over whole runs of the decoder: any arrival order, any interleaving with other blocks. */
module FecRecovery {
  import opened Bytes
  import opened Xor
  import opened Fec
  import Frame

  datatype Event =
    | DataIn(id: u32, k: u8, index: u8, body: seq<byte>)
    | ParityIn(id: u32, k: u8, body: seq<byte>)

  ghost function Feed(d: Dec, e: Event): (Dec, Option<Recovered>) {
    match e
    case DataIn(id, k, index, body) => AddData(d, id, k, index, body)
    case ParityIn(id, k, body) => AddParity(d, id, k, body)
  }

  ghost function Run(events: seq<Event>): Dec {
    if events == [] then EMPTY_DEC else Feed(Run(events[..|events| - 1]), events[|events| - 1]).0
  }

  /** What the run recovers from events of one block, in order. */
  ghost function Recoveries(events: seq<Event>, id: u32): seq<Recovered> {
    if events == [] then [] else
    var before := events[..|events| - 1];
    var last := events[|events| - 1];
    var rec := Feed(Run(before), last).1;
    Recoveries(before, id) + (if last.id == id && rec.Some? then [rec.value] else [])
  }

  // ---- One block with one body missing ----

  datatype BlockSpec = BlockSpec(id: u32, bodies: seq<seq<byte>>, missing: u8)

  ghost predicate SpecValid(s: BlockSpec) {
    2 <= |s.bodies| <= 255 && s.missing < |s.bodies|
  }

  function K(s: BlockSpec): u8
    requires |s.bodies| <= 255
  {
    |s.bodies|
  }

  function Below(n: nat): (s: set<u8>)
    requires n <= 256
    ensures forall i: u8 :: i in s <==> i < n
    ensures |s| == n
  {
    if n == 0 then {} else Below(n - 1) + {n - 1}
  }

  function BodyMap(bodies: seq<seq<byte>>, indices: set<u8>): Bodies
    requires forall i :: i in indices ==> i < |bodies|
  {
    map i | i in indices :: bodies[i]
  }

  lemma BodyMapInsert(bodies: seq<seq<byte>>, indices: set<u8>, i: u8)
    requires i < |bodies| && forall j :: j in indices ==> j < |bodies|
    ensures BodyMap(bodies, indices + {i}) == BodyMap(bodies, indices)[i := bodies[i]]
  {
  }

  function Others(s: BlockSpec): set<u8>
    requires |s.bodies| <= 255
  {
    Below(|s.bodies|) - {s.missing}
  }

  function Parity(s: BlockSpec): seq<byte>
    requires |s.bodies| <= 255
  {
    XorAll(BodyMap(s.bodies, Below(|s.bodies|)))
  }

  function OwnData(s: BlockSpec, i: u8): Event
    requires |s.bodies| <= 255 && i < |s.bodies|
  {
    DataIn(s.id, K(s), i, s.bodies[i])
  }

  function OwnParity(s: BlockSpec): Event
    requires |s.bodies| <= 255
  {
    ParityIn(s.id, K(s), Parity(s))
  }

  /** An event the block may see: its parity, or one of the data bodies that are not missing. */
  ghost predicate Expected(s: BlockSpec, e: Event)
    requires SpecValid(s)
  {
    e == OwnParity(s) ||
    (e.DataIn? && e.index < K(s) && e.index != s.missing && e == OwnData(s, e.index))
  }

  /** The parity of the block and every data body but the missing one. */
  ghost predicate AllFed(s: BlockSpec, fed: seq<Event>)
    requires SpecValid(s)
  {
    OwnParity(s) in fed && forall i: u8 :: i < K(s) && i != s.missing ==> OwnData(s, i) in fed
  }

  /** Something of the block has come, but not all that is expected. */
  ghost predicate Open(s: BlockSpec, fed: seq<Event>)
    requires SpecValid(s)
  {
    (exists e :: e in fed && Expected(s, e)) && !AllFed(s, fed)
  }

  /**
   * The events of the block are expected ones, each at most once. While it is open there may be any others under its
   * number with another block size. No block more than 64 ahead of it comes up.
   */
  ghost predicate Feeds(s: BlockSpec, events: seq<Event>)
    requires SpecValid(s)
  {
    events == [] ||
    var before, last := events[..|events| - 1], events[|events| - 1];
    && Feeds(s, before)
    && (if last.id != s.id then last.id <= s.id + 64
        else if last.k == K(s) then Expected(s, last) && last !in before
        else Open(s, before))
  }

  // ---- What the decoder holds for the block after `got` bodies and perhaps the parity ----

  ghost predicate Complete(s: BlockSpec, got: set<u8>, parity: bool)
    requires SpecValid(s)
  {
    parity && got == Others(s)
  }

  ghost predicate Holds(s: BlockSpec, got: set<u8>, parity: bool, b: Block)
    requires SpecValid(s) && got <= Others(s)
  {
    && b.k == K(s)
    && b.data == BodyMap(s.bodies, got)
    && b.hasParity == parity
    && (parity ==> b.parity == Parity(s))
    && !b.recovered
  }

  ghost predicate Tracks(s: BlockSpec, got: set<u8>, parity: bool, d: Dec)
    requires SpecValid(s) && got <= Others(s)
  {
    && DecValid(d)
    && (d.seen ==> d.highest <= s.id + 64)
    && (if (parity || got != {}) && !Complete(s, got, parity)
        then s.id in d.blocks && Holds(s, got, parity, d.blocks[s.id])
        else s.id !in d.blocks)
  }

  ghost function TheRecovery(s: BlockSpec): Recovered
    requires SpecValid(s)
  {
    RecoveryOf(s);
    Recovered(PadTo(s.bodies[s.missing], |Parity(s)|), s.missing)
  }

  lemma RecoveryOf(s: BlockSpec)
    requires SpecValid(s)
    ensures |s.bodies[s.missing]| <= |Parity(s)|
    ensures XorPad(Parity(s), XorAll(BodyMap(s.bodies, Others(s)))) == PadTo(s.bodies[s.missing], |Parity(s)|)
  {
    var rest := BodyMap(s.bodies, Others(s));
    assert rest[s.missing := s.bodies[s.missing]] == BodyMap(s.bodies, Below(|s.bodies|));
    Recovery(rest, s.missing, s.bodies[s.missing]);
  }

  lemma SubsetSize<T>(a: set<T>, b: set<T>)
    requires a <= b
    ensures |a| <= |b| && (|a| == |b| ==> a == b)
  {
    assert b == a + (b - a);
  }

  lemma {:induction false} MissingFound(data: Bodies, k: u8, missing: u8, i: u8)
    requires i <= missing < k && missing !in data
    requires forall j: u8 :: j < k && j != missing ==> j in data
    ensures FirstMissing(data, k, i) == missing
    decreases missing - i
  {
    if i < missing {
      MissingFound(data, k, missing, i + 1);
    }
  }

  /** A held block recovers exactly when it is complete, and then gives the missing body. */
  lemma RecoversWhenComplete(s: BlockSpec, got: set<u8>, parity: bool, d: Dec)
    requires SpecValid(s) && got <= Others(s)
    requires s.id in d.blocks && Holds(s, got, parity, d.blocks[s.id])
    ensures TryRecover(d, s.id) ==
            if Complete(s, got, parity) then (d.(blocks := d.blocks - {s.id}), Some(TheRecovery(s))) else (d, None)
  {
    var data := d.blocks[s.id].data;
    assert data.Keys == got;
    SubsetSize(got, Others(s));
    assert |data| == |got|;
    if Complete(s, got, parity) {
      RecoveryOf(s);
      MissingFound(data, K(s), s.missing, 0);
    }
  }

  /** An event leaves the other blocks of the window alone. */
  lemma FeedOthers(d: Dec, e: Event, id: u32)
    requires DecValid(d) && id != e.id
    ensures var d' := Feed(d, e).0;
      && DecValid(d')
      && (d'.seen ==> d'.highest == e.id || (d.seen && d'.highest == d.highest))
      && (id in d'.blocks ==> id in d.blocks)
      && (id in d.blocks && !Stale(id, e.id) ==> id in d'.blocks && d'.blocks[id] == d.blocks[id])
  {
    if Fetch(d, e.id, e.k).Some? {
      FetchBlocks(d, e.id, e.k);
    }
  }

  lemma OtherBlockStep(s: BlockSpec, got: set<u8>, parity: bool, d: Dec, e: Event)
    requires SpecValid(s) && got <= Others(s) && Tracks(s, got, parity, d)
    requires e.id != s.id && e.id <= s.id + 64
    ensures Tracks(s, got, parity, Feed(d, e).0)
  {
    FeedOthers(d, e, s.id);
  }

  lemma OwnFetch(s: BlockSpec, got: set<u8>, parity: bool, d: Dec)
    requires SpecValid(s) && got <= Others(s) && Tracks(s, got, parity, d) && !Complete(s, got, parity)
    ensures var f := Fetch(d, s.id, K(s));
            f.Some? && DecValid(f.value) && f.value.highest <= s.id + 64
            && s.id in f.value.blocks && Holds(s, got, parity, f.value.blocks[s.id])
  {
    FetchBlocks(d, s.id, K(s));
    assert BodyMap(s.bodies, {}) == map[];
  }

  /** Putting the block back with what it now holds, then trying to recover. */
  lemma PutBack(s: BlockSpec, got: set<u8>, parity: bool, d: Dec, b: Block)
    requires SpecValid(s) && got <= Others(s) && (parity || got != {})
    requires DecValid(d) && d.highest <= s.id + 64 && s.id in d.blocks && Holds(s, got, parity, b)
    ensures var (d', rec) := TryRecover(d.(blocks := d.blocks[s.id := b]), s.id);
            && Tracks(s, got, parity, d')
            && rec == if Complete(s, got, parity) then Some(TheRecovery(s)) else None
  {
    RecoversWhenComplete(s, got, parity, d.(blocks := d.blocks[s.id := b]));
  }

  lemma OwnDataStep(s: BlockSpec, got: set<u8>, parity: bool, d: Dec, i: u8)
    requires SpecValid(s) && got <= Others(s) && Tracks(s, got, parity, d)
    requires i in Others(s) && i !in got && i < |s.bodies|
    ensures var (d', rec) := AddData(d, s.id, K(s), i, s.bodies[i]);
            && Tracks(s, got + {i}, parity, d')
            && rec == if Complete(s, got + {i}, parity) then Some(TheRecovery(s)) else None
  {
    OwnFetch(s, got, parity, d);
    var f := Fetch(d, s.id, K(s)).value;
    var b := f.blocks[s.id];
    var b' := b.(data := b.data[i := s.bodies[i]]);
    BodyMapInsert(s.bodies, got, i);
    PutBack(s, got + {i}, parity, f, b');
  }

  lemma OwnParityStep(s: BlockSpec, got: set<u8>, d: Dec)
    requires SpecValid(s) && got <= Others(s) && Tracks(s, got, false, d)
    ensures var (d', rec) := AddParity(d, s.id, K(s), Parity(s));
            && Tracks(s, got, true, d')
            && rec == if Complete(s, got, true) then Some(TheRecovery(s)) else None
  {
    OwnFetch(s, got, false, d);
    var f := Fetch(d, s.id, K(s)).value;
    var b := f.blocks[s.id];
    var b' := b.(parity := Parity(s), hasParity := true);
    PutBack(s, got, true, f, b');
  }

  // ---- The run ----

  /** Events under the block's number with another size do not count. */
  ghost predicate Own(s: BlockSpec, e: Event)
    requires SpecValid(s)
  {
    e.id == s.id && e.k == K(s)
  }

  /** What an event of the run adds to the bodies of the block. */
  ghost function NewBody(s: BlockSpec, e: Event): set<u8>
    requires SpecValid(s)
  {
    if e.DataIn? && Own(s, e) then {e.index} else {}
  }

  ghost function Arrived(s: BlockSpec, events: seq<Event>): set<u8>
    requires SpecValid(s)
  {
    if events == [] then {} else
    Arrived(s, events[..|events| - 1]) + NewBody(s, events[|events| - 1])
  }

  ghost predicate ParityArrived(s: BlockSpec, events: seq<Event>)
    requires SpecValid(s)
  {
    events != [] &&
    (ParityArrived(s, events[..|events| - 1]) || (events[|events| - 1].ParityIn? && Own(s, events[|events| - 1])))
  }

  lemma {:induction false} ArrivedMeaning(s: BlockSpec, events: seq<Event>, i: u8)
    requires SpecValid(s) && Feeds(s, events)
    ensures i in Arrived(s, events) <==> i < K(s) && i != s.missing && OwnData(s, i) in events
    ensures ParityArrived(s, events) <==> OwnParity(s) in events
  {
    if events != [] {
      var before, last := events[..|events| - 1], events[|events| - 1];
      ArrivedMeaning(s, before, i);
      assert events == before + [last];
    }
  }

  ghost predicate IsNew(s: BlockSpec, got: set<u8>, parity: bool, e: Event)
    requires SpecValid(s)
  {
    if e.id != s.id then e.id <= s.id + 64
    else if e.k == K(s) then Expected(s, e) && (if e.DataIn? then e.index !in got else !parity)
    else (parity || got != {}) && !Complete(s, got, parity)
  }

  /** An open block refuses what comes under its number with another size. */
  lemma OtherSizeStep(s: BlockSpec, got: set<u8>, parity: bool, d: Dec, e: Event)
    requires SpecValid(s) && got <= Others(s) && Tracks(s, got, parity, d) && e.id == s.id && e.k != K(s)
    requires (parity || got != {}) && !Complete(s, got, parity)
    ensures Feed(d, e) == (d, None)
  {
    hide Fetch;
    OtherSizeRefused(d, e.id, e.k, if e.DataIn? then e.index else 0, e.body);
  }

  lemma TracksStep(s: BlockSpec, got: set<u8>, parity: bool, d: Dec, e: Event)
    requires SpecValid(s) && got <= Others(s) && Tracks(s, got, parity, d) && IsNew(s, got, parity, e)
    ensures got + NewBody(s, e) <= Others(s)
    ensures Tracks(s, got + NewBody(s, e), parity || (e.ParityIn? && Own(s, e)), Feed(d, e).0)
    ensures e.id == s.id ==> !Complete(s, got, parity)
    ensures e.id == s.id ==>
            Feed(d, e).1 == if Complete(s, got + NewBody(s, e), parity || (e.ParityIn? && Own(s, e)))
                            then Some(TheRecovery(s)) else None
  {
    hide Feed;
    if e.id != s.id {
      OtherBlockStep(s, got, parity, d, e);
      assert got + NewBody(s, e) == got;
    } else if e.k != K(s) {
      OtherSizeStep(s, got, parity, d, e);
      assert got + NewBody(s, e) == got;
    } else {
      OwnStep(s, got, parity, d, e);
    }
  }

  lemma OwnStep(s: BlockSpec, got: set<u8>, parity: bool, d: Dec, e: Event)
    requires SpecValid(s) && got <= Others(s) && Tracks(s, got, parity, d) && IsNew(s, got, parity, e) && Own(s, e)
    ensures got + NewBody(s, e) <= Others(s) && !Complete(s, got, parity)
    ensures Tracks(s, got + NewBody(s, e), parity || e.ParityIn?, Feed(d, e).0)
    ensures Feed(d, e).1 == if Complete(s, got + NewBody(s, e), parity || e.ParityIn?)
                            then Some(TheRecovery(s)) else None
  {
    if e.DataIn? {
      OwnDataStep(s, got, parity, d, e.index);
    } else {
      OwnParityStep(s, got, d);
      assert got + NewBody(s, e) == got;
    }
  }

  lemma AllFedIsComplete(s: BlockSpec, fed: seq<Event>)
    requires SpecValid(s) && Feeds(s, fed)
    ensures AllFed(s, fed) <==> Complete(s, Arrived(s, fed), ParityArrived(s, fed))
  {
    hide Feeds, Arrived, ParityArrived, OwnData, OwnParity;
    ArrivedMeaning(s, fed, 0);
    forall i: u8 ensures i in Arrived(s, fed) <==> i < K(s) && i != s.missing && OwnData(s, i) in fed {
      ArrivedMeaning(s, fed, i);
    }
    if AllFed(s, fed) {
      assert Arrived(s, fed) == Others(s);
    } else if OwnParity(s) in fed {
      var i: u8 :| i < K(s) && i != s.missing && OwnData(s, i) !in fed;
      assert i in Others(s) && i !in Arrived(s, fed);
    }
  }

  lemma OpenMeaning(s: BlockSpec, fed: seq<Event>)
    requires SpecValid(s) && Feeds(s, fed) && Open(s, fed)
    ensures ParityArrived(s, fed) || Arrived(s, fed) != {}
    ensures !Complete(s, Arrived(s, fed), ParityArrived(s, fed))
  {
    hide Feeds, Arrived, ParityArrived, AllFed, Complete;
    AllFedIsComplete(s, fed);
    var e :| e in fed && Expected(s, e);
    ArrivedMeaning(s, fed, if e.DataIn? then e.index else 0);
  }

  /** An event the block may see has not been seen before. */
  lemma LastIsNew(s: BlockSpec, events: seq<Event>)
    requires SpecValid(s) && events != [] && Feeds(s, events)
    ensures var before := events[..|events| - 1];
      Feeds(s, before) && IsNew(s, Arrived(s, before), ParityArrived(s, before), events[|events| - 1])
  {
    hide Parity, Open, Complete;
    var before, last := events[..|events| - 1], events[|events| - 1];
    ArrivedMeaning(s, before, if last.DataIn? then last.index else 0);
    if last.id == s.id && last.k != K(s) {
      OpenMeaning(s, before);
    }
  }

  /** What the last event does to a run. */
  lemma LastEvent(s: BlockSpec, events: seq<Event>)
    requires SpecValid(s) && events != []
    ensures var before, last := events[..|events| - 1], events[|events| - 1];
      var rec := Feed(Run(before), last).1;
      && Run(events) == Feed(Run(before), last).0
      && Recoveries(events, s.id)
         == Recoveries(before, s.id) + (if last.id == s.id && rec.Some? then [rec.value] else [])
      && Arrived(s, events) == Arrived(s, before) + NewBody(s, last)
      && (ParityArrived(s, events) <==> ParityArrived(s, before) || (last.ParityIn? && Own(s, last)))
  {
    hide Feed, NewBody;
  }

  lemma {:induction false} TracksRun(s: BlockSpec, events: seq<Event>)
    requires SpecValid(s) && Feeds(s, events)
    ensures Arrived(s, events) <= Others(s)
    ensures Tracks(s, Arrived(s, events), ParityArrived(s, events), Run(events))
    ensures Recoveries(events, s.id)
         == if Complete(s, Arrived(s, events), ParityArrived(s, events)) then [TheRecovery(s)] else []
  {
    if events != [] {
      hide Feed, Feeds, IsNew, TheRecovery, Tracks, Others, Run, Recoveries, Arrived, ParityArrived;
      LastEvent(s, events);
      var before, last := events[..|events| - 1], events[|events| - 1];
      LastIsNew(s, events);
      TracksRun(s, before);
      TracksStep(s, Arrived(s, before), ParityArrived(s, before), Run(before), last);
      if last.id != s.id {
        assert Arrived(s, events) == Arrived(s, before);
      }
    }
  }

  /**
   * Whatever the order in which the parity and all but one body of a block arrive, and whatever other blocks and, once
   * it is open, frames under its number with another size are fed in between, the run recovers from the block exactly
   * once: the missing index and body, zero-padded.
   */
  lemma AnyOrderRecovery(s: BlockSpec, events: seq<Event>)
    requires SpecValid(s) && Feeds(s, events)
    requires AllFed(s, events)
    ensures |s.bodies[s.missing]| <= |Parity(s)|
    ensures Recoveries(events, s.id) == [Recovered(PadTo(s.bodies[s.missing], |Parity(s)|), s.missing)]
    ensures s.id !in Run(events).blocks
  {
    TracksRun(s, events);
    AllFedIsComplete(s, events);
    RecoveryOf(s);
  }

  /** The recovered body is the lost frame's: its counter and ciphertext come back out of it. */
  lemma RecoveredBodyParses(s: BlockSpec, counter: u64, sealed: seq<byte>)
    requires SpecValid(s) && |sealed| < 0x1_0000
    requires s.bodies[s.missing] == Frame.DataBody(counter, sealed)
    ensures |s.bodies[s.missing]| <= |Parity(s)|
    ensures Frame.ParseDataBody(PadTo(s.bodies[s.missing], |Parity(s)|)) == Frame.Ok(Frame.Payload(counter, sealed))
  {
    RecoveryOf(s);
    Frame.ParsePaddedDataBody(counter, sealed, seq(|Parity(s)| - |s.bodies[s.missing]|, _ => 0));
  }
}
