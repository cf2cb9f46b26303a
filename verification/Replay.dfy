/** The sliding bitmap of internal/dptunnel/replay.go. */
module Replay {
  import opened Bytes

  const WINDOW_SIZE: nat := 64
  const TWO_64: nat := 0x1_0000_0000_0000_0000

  // ---- Words of 64 bits, as unsigned integers ----

  /** w << s on uint64: s doublings, each dropping bit 64. */
  function ShiftLeft(w: u64, s: nat): u64
    decreases s
  {
    if s == 0 then w else ShiftLeft(w * 2 % TWO_64, s - 1)
  }

  /** w & (1 << i) != 0 */
  predicate TestBit(w: nat, i: nat) {
    if i == 0 then w % 2 == 1 else TestBit(w / 2, i - 1)
  }

  /** w | (1 << i) */
  function SetBit(w: nat, i: nat): nat {
    if i == 0 then (if w % 2 == 1 then w else w + 1) else SetBit(w / 2, i - 1) * 2 + w % 2
  }

  lemma {:induction false} TestSetBit(w: nat, i: nat, j: nat)
    ensures TestBit(SetBit(w, i), j) <==> (i == j || TestBit(w, j))
  {
    if i == 0 || j == 0 {
    } else {
      TestSetBit(w / 2, i - 1, j - 1);
    }
  }

  lemma {:induction false} SetBitBound(w: nat, i: nat, n: nat)
    requires w < Pow2(n) && i < n
    ensures SetBit(w, i) < Pow2(n)
  {
    var m, h := Pow2(n - 1), w / 2;
    assert w == 2 * h + w % 2 && h < m;
    if i == 0 {
      assert SetBit(w, 0) <= 2 * h + 1;
    } else {
      SetBitBound(w / 2, i - 1, n - 1);
    }
  }

  lemma TwoTo64()
    ensures Pow2(64) == TWO_64
  {
    for n := 0 to 8
      invariant Pow2(8 * n) == Pow256(n)
    {
      assert Pow2(8 * n + 4) == 16 * Pow2(8 * n) by {
        assert Pow2(8 * n + 2) == 4 * Pow2(8 * n);
      }
      assert Pow2(8 * n + 6) == 4 * Pow2(8 * n + 4);
    }
    WidthBounds();
  }

  lemma {:induction false} TestBitMod(w: nat, n: nat, i: nat)
    requires i < n
    ensures Pow2(n) > 0
    ensures TestBit(w % Pow2(n), i) <==> TestBit(w, i)
  {
    Pow2Positive(n);
    Pow2Positive(n - 1);
    ModHalf(w, Pow2(n - 1));
    if i == 0 {
    } else {
      TestBitMod(w / 2, n - 1, i - 1);
    }
  }

  lemma ModHalf(w: nat, m: nat)
    requires m > 0
    ensures (w % (2 * m)) / 2 == (w / 2) % m
    ensures (w % (2 * m)) % 2 == w % 2
  {
    var q, r := w / (2 * m), w % (2 * m);
    assert w == (2 * m) * q + r;
    assert w == 2 * (m * q) + r;
    assert w / 2 == m * q + r / 2;
    QuotientUnique(w / 2, m, q, r / 2);
  }

  lemma {:induction false} TestShiftLeft(w: u64, s: nat, i: nat)
    requires i < 64
    ensures TestBit(ShiftLeft(w, s), i) <==> (s <= i && TestBit(w, i - s))
    decreases s
  {
    if s == 0 {
    } else {
      TestShiftLeft(w * 2 % TWO_64, s - 1, i);
      if s <= i {
        TwoTo64();
        TestBitMod(w * 2, 64, i - s + 1);
      } else if s - 1 == i {
        TwoTo64();
        TestBitMod(w * 2, 64, 0);
      }
    }
  }

  // ---- The window ----

  datatype Window = Window(last: u64, bitmap: u64, seen: bool)

  const EMPTY := Window(0, 0, false)

  /** Whether the window takes the counter. */
  predicate Accepts(w: Window, c: u64) {
    !w.seen || w.last < c ||
    (c < w.last && w.last - c < WINDOW_SIZE && !TestBit(w.bitmap, w.last - c))
  }

  function Word(n: nat): u64 {
    n % TWO_64
  }

  /** The window after the counter was offered. */
  function Offer(w: Window, c: u64): Window {
    if !w.seen then
      Window(c, 1, true)
    else if w.last < c then
      Window(c, if c - w.last >= WINDOW_SIZE then 1 else Word(SetBit(ShiftLeft(w.bitmap, c - w.last), 0)), true)
    else if Accepts(w, c) then
      w.(bitmap := Word(SetBit(w.bitmap, w.last - c)))
    else
      w
  }

  class ReplayWindow {
    var last: u64
    var bitmap: u64
    var seen: bool

    constructor ()
      ensures Abs() == EMPTY
    {
      last, bitmap, seen := 0, 0, false;
    }

    function Abs(): Window
      reads this
    {
      Window(last, bitmap, seen)
    }

    method Accept(counter: u64) returns (ok: bool)
      modifies this
      ensures ok == Accepts(old(Abs()), counter)
      ensures Abs() == Offer(old(Abs()), counter)
    {
      if !seen {
        seen := true;
        last := counter;
        bitmap := 1;
        return true;
      }
      if counter > last {
        var shift := counter - last;
        if shift >= WINDOW_SIZE {
          bitmap := 1;
        } else {
          bitmap := Word(SetBit(ShiftLeft(bitmap, shift), 0));
        }
        last := counter;
        return true;
      } else if counter == last {
        return false;
      } else {
        var diff := last - counter;
        if diff >= WINDOW_SIZE {
          return false;
        }
        if TestBit(bitmap, diff) {
          return false;
        }
        bitmap := Word(SetBit(bitmap, diff));
        return true;
      }
    }
  }

  // ---- The bitmap refines the set of accepted counters ----

  ghost predicate Represents(w: Window, accepted: set<u64>) {
    if !w.seen then
      accepted == {}
    else
      && w.last in accepted
      && (forall c :: c in accepted ==> c <= w.last)
      && (forall i: nat :: i < WINDOW_SIZE ==> (TestBit(w.bitmap, i) <==> i <= w.last && w.last - i in accepted))
  }

  /** The set-level rule: taken unless taken before or 64 or more behind the largest. */
  ghost predicate SetAccepts(w: Window, accepted: set<u64>, c: u64) {
    c !in accepted && !(w.seen && c < w.last && w.last - c >= 64)
  }

  lemma BitsOfOne(i: nat)
    ensures TestBit(1, i) <==> i == 0
  {
    if i > 0 {
      ZeroBits(i - 1);
    }
  }

  lemma ZeroBits(i: nat)
    ensures !TestBit(0, i)
  {
  }

  lemma SetBitFits(w: u64, i: nat)
    requires i < 64
    ensures Word(SetBit(w, i)) == SetBit(w, i)
  {
    TwoTo64();
    SetBitBound(w, i, 64);
  }

  lemma OfferRefines(w: Window, accepted: set<u64>, c: u64)
    requires Represents(w, accepted)
    ensures Accepts(w, c) <==> SetAccepts(w, accepted, c)
    ensures Represents(Offer(w, c), if Accepts(w, c) then accepted + {c} else accepted)
  {
    var w' := Offer(w, c);
    if !w.seen {
      forall i: nat | i < WINDOW_SIZE
        ensures TestBit(w'.bitmap, i) <==> i == 0
      {
        BitsOfOne(i);
      }
    } else if w.last < c {
      var shift := c - w.last;
      forall i: nat | i < WINDOW_SIZE
        ensures TestBit(w'.bitmap, i) <==> i <= c && c - i in accepted + {c}
      {
        BitsOfOne(i);
        if shift < WINDOW_SIZE {
          SetBitFits(ShiftLeft(w.bitmap, shift), 0);
          TestSetBit(ShiftLeft(w.bitmap, shift), 0, i);
          TestShiftLeft(w.bitmap, shift, i);
          if shift <= i {
            assert c - i == w.last - (i - shift);
          }
        }
      }
    } else {
      var diff := w.last - c;
      if diff < WINDOW_SIZE {
        assert TestBit(w.bitmap, diff) <==> w.last - diff in accepted;
        SetBitFits(w.bitmap, diff);
        forall i: nat | i < WINDOW_SIZE
          ensures TestBit(SetBit(w.bitmap, diff), i) <==> (i == diff || TestBit(w.bitmap, i))
        {
          TestSetBit(w.bitmap, diff, i);
        }
      }
    }
  }

  /** In terms of the accepted counters alone. */
  lemma AcceptsMeaning(w: Window, accepted: set<u64>, c: u64)
    requires Represents(w, accepted)
    ensures Accepts(w, c) <==> c !in accepted && forall a :: a in accepted ==> a < c + 64
  {
    OfferRefines(w, accepted, c);
  }

  // ---- Runs ----

  function RunWindow(cs: seq<u64>): Window {
    if cs == [] then EMPTY else Offer(RunWindow(cs[..|cs| - 1]), cs[|cs| - 1])
  }

  /** The counters that were taken during the run. */
  ghost function RunAccepted(cs: seq<u64>): set<u64> {
    if cs == [] then {} else
    var before := cs[..|cs| - 1];
    var c := cs[|cs| - 1];
    RunAccepted(before) + (if Accepts(RunWindow(before), c) then {c} else {})
  }

  /** In every reachable state the bitmap is the accepted set, and the next verdict is the set-level one. */
  lemma {:induction false} WindowRefinesSet(cs: seq<u64>, next: u64)
    ensures Represents(RunWindow(cs), RunAccepted(cs))
    ensures Accepts(RunWindow(cs), next) <==>
              next !in RunAccepted(cs) && forall a :: a in RunAccepted(cs) ==> a < next + 64
  {
    if cs == [] {
    } else {
      WindowRefinesSet(cs[..|cs| - 1], cs[|cs| - 1]);
      OfferRefines(RunWindow(cs[..|cs| - 1]), RunAccepted(cs[..|cs| - 1]), cs[|cs| - 1]);
    }
    AcceptsMeaning(RunWindow(cs), RunAccepted(cs), next);
  }
}
