/** XOR forward error correction of internal/dptunnel/fec.go: one parity body for every k data bodies. */
module Fec {
  import opened Bytes
  import opened Xor

  const FEC_WINDOW: nat := 64
  const FEC_MAX_BLOCKS: nat := 256

  // ---- Encoder ----

  datatype Enc = Enc(k: int, blockID: u32, count: nat, parity: seq<byte>)

  function NewEnc(k: int): Enc {
    Enc(k, 0, 0, [])
  }

  predicate Enabled(k: int) {
    k > 1
  }

  function EncAdd(e: Enc, body: seq<byte>): Enc {
    e.(parity := XorPad(e.parity, body), count := e.count + 1)
  }

  predicate BlockDone(e: Enc) {
    e.count >= e.k
  }

  function NextBlock(e: Enc): Enc {
    e.(parity := [], count := 0, blockID := (e.blockID + 1) % 0x1_0000_0000)
  }

  class FecEncoder {
    const k: int
    var blockID: u32
    var count: nat
    var parity: array<byte>

    constructor (k: int)
      ensures Abs() == NewEnc(k) && fresh(parity)
    {
      this.k := k;
      blockID, count := 0, 0;
      parity := new byte[0];
    }

    function Abs(): Enc
      reads this, parity
    {
      Enc(k, blockID, count, parity[..])
    }

    method Peek() returns (id: u32, index: u8)
      ensures id == Abs().blockID && index == Abs().count % 0x100
    {
      id, index := blockID, count % 0x100;
    }

    method Add(body: seq<byte>) returns (id: u32, index: u8, done: bool)
      modifies this, parity
      ensures Abs() == EncAdd(old(Abs()), body)
      ensures parity == old(parity) || fresh(parity)
      ensures id == old(blockID) && index == old(count) % 0x100 && done == BlockDone(Abs())
    {
      id, index := blockID, count % 0x100;
      parity := XorInto(parity, body);
      count := count + 1;
      done := count >= k;
    }

    method SealParity() returns (id: u32, body: seq<byte>)
      modifies this
      ensures Abs() == NextBlock(old(Abs())) && fresh(parity)
      ensures id == old(blockID) && body == old(parity[..])
    {
      id, body := blockID, parity[..];
      parity := new byte[0];
      count := 0;
      blockID := (blockID + 1) % 0x1_0000_0000;
    }
  }

  // ---- Decoder ----

  datatype Block = Block(k: u8, data: Bodies, parity: seq<byte>, hasParity: bool, recovered: bool)

  datatype Dec = Dec(blocks: map<u32, Block>, highest: u32, seen: bool)

  datatype Recovered = Recovered(body: seq<byte>, index: u8)

  const EMPTY_DEC := Dec(map[], 0, false)

  predicate Stale(id: u32, highest: u32) {
    id < highest && highest - id > FEC_WINDOW
  }

  function DropStale(blocks: map<u32, Block>, highest: u32): map<u32, Block> {
    map id | id in blocks && !Stale(id, highest) :: blocks[id]
  }

  ghost predicate IsLowest(low: u32, s: set<u32>) {
    low in s && forall id :: id in s ==> low <= id
  }

  lemma {:induction false} FindLowest(s: set<u32>) returns (low: u32)
    requires s != {}
    ensures IsLowest(low, s)
  {
    var x :| x in s;
    low := x;
    var rest := s - {x};
    if rest != {} {
      var y := FindLowest(rest);
      low := if y < x then y else x;
    }
    forall id | id in s
      ensures low <= id
    {
      assert id == x || id in rest;
    }
  }

  ghost function Lowest(s: set<u32>): (low: u32)
    requires s != {}
    ensures IsLowest(low, s)
  {
    assert exists low :: IsLowest(low, s) by {
      var low := FindLowest(s);
    }
    var low :| IsLowest(low, s);
    low
  }

  /** The hard cap: the lowest block goes until at most FEC_MAX_BLOCKS are left. */
  ghost function CapBlocks(blocks: map<u32, Block>): map<u32, Block>
    decreases |blocks|
  {
    if |blocks| <= FEC_MAX_BLOCKS then blocks else
    var low := Lowest(blocks.Keys);
    assert |blocks.Keys - {low}| < |blocks.Keys|;
    assert (blocks - {low}).Keys == blocks.Keys - {low};
    CapBlocks(blocks - {low})
  }

  ghost function Evicted(d: Dec): Dec {
    d.(blocks := CapBlocks(DropStale(d.blocks, d.highest)))
  }

  /** block(): the decoder once the block is there, or None when the frame is refused. */
  ghost function Fetch(d: Dec, id: u32, k: u8): Option<Dec> {
    if d.seen && Stale(id, d.highest) then None
    else if id in d.blocks then (if d.blocks[id].k != k then None else Some(d))
    else
      var highest := if !d.seen || id > d.highest then id else d.highest;
      Some(Evicted(Dec(d.blocks[id := Block(k, map[], [], false, false)], highest, true)))
  }

  function FirstMissing(data: Bodies, k: u8, i: u8): u8
    decreases k - i
  {
    if i >= k then 0 else if i !in data then i else FirstMissing(data, k, i + 1)
  }

  predicate Recoverable(d: Dec, id: u32) {
    && id in d.blocks
    && d.blocks[id].hasParity
    && !d.blocks[id].recovered
    && d.blocks[id].k - |d.blocks[id].data| == 1
  }

  /** tryRecover(): a recovered block leaves the table. */
  ghost function TryRecover(d: Dec, id: u32): (Dec, Option<Recovered>) {
    if Recoverable(d, id) then
      var b := d.blocks[id];
      (d.(blocks := d.blocks - {id}), Some(Recovered(XorPad(b.parity, XorAll(b.data)), FirstMissing(b.data, b.k, 0))))
    else
      (d, None)
  }

  ghost function AddData(d: Dec, id: u32, k: u8, index: u8, body: seq<byte>): (Dec, Option<Recovered>) {
    match Fetch(d, id, k)
    case None => (d, None)
    case Some(d') =>
      if id !in d'.blocks then (d', None) else
      var b := d'.blocks[id];
      TryRecover(d'.(blocks := d'.blocks[id := b.(data := b.data[index := body])]), id)
  }

  ghost function AddParity(d: Dec, id: u32, k: u8, parity: seq<byte>): (Dec, Option<Recovered>) {
    match Fetch(d, id, k)
    case None => (d, None)
    case Some(d') =>
      if id !in d'.blocks then (d', None) else
      var b := d'.blocks[id];
      TryRecover(d'.(blocks := d'.blocks[id := b.(parity := parity, hasParity := true)]), id)
  }

  class FecDecoder {
    var blocks: map<u32, Block>
    var highest: u32
    var seen: bool

    constructor ()
      ensures Abs() == EMPTY_DEC
    {
      blocks, highest, seen := map[], 0, false;
    }

    function Abs(): Dec
      reads this
    {
      Dec(blocks, highest, seen)
    }

    method Evict()
      modifies this
      ensures Abs() == Evicted(old(Abs()))
    {
      EvictStale();
      while |blocks| > FEC_MAX_BLOCKS
        invariant CapBlocks(blocks) == CapBlocks(DropStale(old(blocks), highest))
        invariant highest == old(highest) && seen == old(seen)
        decreases |blocks|
      {
        var low := LowestBlock();
        assert |blocks.Keys - {low}| < |blocks.Keys|;
        assert (blocks - {low}).Keys == blocks.Keys - {low};
        blocks := blocks - {low};
      }
    }

    method EvictStale()
      modifies this`blocks
      ensures blocks == DropStale(old(blocks), highest)
    {
      ghost var before := blocks;
      var todo := blocks.Keys;
      while todo != {}
        invariant todo <= before.Keys
        invariant blocks == map id | id in before && (id in todo || !Stale(id, highest)) :: before[id]
        decreases |todo|
      {
        var id :| id in todo;
        if id < highest && highest - id > FEC_WINDOW {
          blocks := blocks - {id};
        }
        todo := todo - {id};
      }
    }

    method LowestBlock() returns (low: u32)
      requires blocks != map[]
      ensures low == Lowest(blocks.Keys)
    {
      low := 0;
      var first := true;
      var keys := blocks.Keys;
      while keys != {}
        invariant keys <= blocks.Keys && (first ==> keys == blocks.Keys)
        invariant !first ==> low in blocks && forall id :: id in blocks && id !in keys ==> low <= id
        decreases |keys|
      {
        var id :| id in keys;
        if first || id < low {
          low, first := id, false;
        }
        keys := keys - {id};
      }
    }

    method GetBlock(id: u32, k: u8) returns (found: bool)
      modifies this
      ensures found == Fetch(old(Abs()), id, k).Some?
      ensures Abs() == if found then Fetch(old(Abs()), id, k).value else old(Abs())
    {
      if seen && id < highest && highest - id > FEC_WINDOW {
        return false;
      }
      if id in blocks {
        return blocks[id].k == k;
      }
      blocks := blocks[id := Block(k, map[], [], false, false)];
      if !seen || id > highest {
        highest, seen := id, true;
      }
      Evict();
      return true;
    }

    method Recover(id: u32) returns (rec: Option<Recovered>)
      modifies this
      ensures (Abs(), rec) == TryRecover(old(Abs()), id)
    {
      if id !in blocks || !blocks[id].hasParity || blocks[id].recovered {
        return None;
      }
      var b := blocks[id];
      if b.k - |b.data| != 1 {
        return None;
      }
      var missing: u8 := 0;
      var i := 0;
      while i < b.k
        invariant 0 <= i <= b.k && missing == 0
        invariant FirstMissing(b.data, b.k, 0) == FirstMissing(b.data, b.k, i)
      {
        if i !in b.data {
          missing := i;
          break;
        }
        i := i + 1;
      }
      var body := XorRest(b.parity, b.data);
      blocks := blocks - {id};
      rec := Some(Recovered(body, missing));
    }

    method FeedData(id: u32, k: u8, index: u8, body: seq<byte>) returns (rec: Option<Recovered>)
      modifies this
      ensures (Abs(), rec) == AddData(old(Abs()), id, k, index, body)
    {
      var found := GetBlock(id, k);
      if !found {
        return None;
      }
      if id in blocks {
        blocks := blocks[id := blocks[id].(data := blocks[id].data[index := body])];
      }
      rec := Recover(id);
    }

    method FeedParity(id: u32, k: u8, parity: seq<byte>) returns (rec: Option<Recovered>)
      modifies this
      ensures (Abs(), rec) == AddParity(old(Abs()), id, k, parity)
    {
      var found := GetBlock(id, k);
      if !found {
        return None;
      }
      if id in blocks {
        blocks := blocks[id := blocks[id].(parity := parity, hasParity := true)];
      }
      rec := Recover(id);
    }
  }

  // ---- The decoder invariant: the window alone bounds the table ----

  /** Every buffered block is in the window, and none is marked recovered. */
  ghost predicate DecValid(d: Dec) {
    && (!d.seen ==> d.blocks == map[])
    && (forall id :: id in d.blocks ==> id <= d.highest && !Stale(id, d.highest) && !d.blocks[id].recovered)
  }

  lemma {:induction false} BoundedKeys(s: set<u32>, lo: nat, n: nat)
    requires forall id :: id in s ==> lo <= id < lo + n
    ensures |s| <= n
  {
    if n == 0 {
      assert s == {};
    } else {
      var s' := s - {lo + n - 1};
      BoundedKeys(s', lo, n - 1);
      assert |s'| >= |s| - 1;
    }
  }

  lemma WindowBoundsBlocks(blocks: map<u32, Block>, highest: u32)
    requires forall id :: id in blocks ==> id <= highest && !Stale(id, highest)
    ensures |blocks| <= FEC_WINDOW + 1
  {
    var lo := if highest < FEC_WINDOW then 0 else highest - FEC_WINDOW;
    BoundedKeys(blocks.Keys, lo, FEC_WINDOW + 1);
    assert |blocks| == |blocks.Keys|;
  }

  /** The hard cap of FEC_MAX_BLOCKS never removes a block: after eviction exactly the window is left. */
  lemma CapNeverFires(d: Dec)
    requires forall id :: id in d.blocks ==> id <= d.highest
    ensures Evicted(d).blocks == DropStale(d.blocks, d.highest)
    ensures |Evicted(d).blocks| <= FEC_WINDOW + 1
  {
    WindowBoundsBlocks(DropStale(d.blocks, d.highest), d.highest);
  }

  /** What Fetch leaves in the table, block by block. */
  lemma FetchBlocks(d: Dec, id: u32, k: u8)
    requires DecValid(d) && Fetch(d, id, k).Some?
    ensures var d' := Fetch(d, id, k).value;
      && DecValid(d') && d'.seen
      && id in d'.blocks
      && d'.blocks[id] == (if id in d.blocks then d.blocks[id] else Block(k, map[], [], false, false))
      && d'.highest == (if id in d.blocks || (d.seen && id <= d.highest) then d.highest else id)
      && (forall j :: j != id ==> (j in d'.blocks <==> j in d.blocks && !Stale(j, d'.highest)))
      && (forall j :: j != id && j in d'.blocks ==> d'.blocks[j] == d.blocks[j])
  {
    if id !in d.blocks {
      var highest := if !d.seen || id > d.highest then id else d.highest;
      CapNeverFires(Dec(d.blocks[id := Block(k, map[], [], false, false)], highest, true));
    }
  }

  // ---- What the decoder lets in, in numbers ----

  /** A frame whose block size is not that of the open block changes nothing, whether data or parity. */
  lemma OtherSizeRefused(d: Dec, id: u32, k: u8, index: u8, body: seq<byte>)
    requires id in d.blocks && d.blocks[id].k != k
    ensures AddData(d, id, k, index, body) == (d, None) && AddParity(d, id, k, body) == (d, None)
  {
  }

  /** So does a frame of a block more than 64 behind the newest one. */
  lemma TooOldRefused(d: Dec, id: u32, k: u8, index: u8, body: seq<byte>)
    requires d.seen && id + 64 < d.highest
    ensures AddData(d, id, k, index, body) == (d, None) && AddParity(d, id, k, body) == (d, None)
  {
  }

  ghost predicate LetIn(d: Dec, id: u32, k: u8) {
    (d.seen ==> d.highest <= id + 64) && (id in d.blocks ==> d.blocks[id].k == k)
  }

  lemma FetchedExactly(d: Dec, id: u32, k: u8)
    ensures Fetch(d, id, k).Some? <==> LetIn(d, id, k)
  {
    hide Evicted;
  }

  function BlockOr(d: Dec, id: u32, k: u8): Block {
    if id in d.blocks then d.blocks[id] else Block(k, map[], [], false, false)
  }

  /** The block is now b, or gone if that can be recovered; other blocks go as soon as they are more than 64 behind. */
  ghost predicate Stored(d: Dec, d': Dec, id: u32, b: Block, rec: Option<Recovered>) {
    && (rec.Some? <==> b.hasParity && |b.data| + 1 == b.k)
    && (if rec.Some? then id !in d'.blocks else id in d'.blocks && d'.blocks[id] == b)
    && d'.seen && d'.highest == (if d.seen && id <= d.highest then d.highest else id)
    && (forall j :: j != id ==> (j in d'.blocks <==> j in d.blocks && d'.highest <= j + 64))
    && (forall j :: j != id && j in d'.blocks ==> d'.blocks[j] == d.blocks[j])
  }

  /** Any other data frame joins its block. */
  lemma DataStored(d: Dec, id: u32, k: u8, index: u8, body: seq<byte>)
    requires DecValid(d) && LetIn(d, id, k)
    ensures var (d', rec) := AddData(d, id, k, index, body);
      var b := BlockOr(d, id, k);
      Stored(d, d', id, b.(data := b.data[index := body]), rec)
  {
    FetchedExactly(d, id, k);
    hide Fetch, LetIn;
    FetchBlocks(d, id, k);
  }

  /** Any other parity frame becomes the parity of its block. */
  lemma ParityStored(d: Dec, id: u32, k: u8, body: seq<byte>)
    requires DecValid(d) && LetIn(d, id, k)
    ensures var (d', rec) := AddParity(d, id, k, body);
      Stored(d, d', id, BlockOr(d, id, k).(parity := body, hasParity := true), rec)
  {
    FetchedExactly(d, id, k);
    hide Fetch, LetIn;
    FetchBlocks(d, id, k);
  }
}
