/** Bytes, fixed-width unsigned integers and their big-endian encoding. */
module Bytes {
  type u8 = n: nat | n < 0x100
  type byte = u8
  type u16 = n: nat | n < 0x1_0000
  type u32 = n: nat | n < 0x1_0000_0000
  type u64 = n: nat | n < 0x1_0000_0000_0000_0000

  datatype Option<+T> = None | Some(value: T)

  function Pow2(n: nat): nat {
    if n == 0 then 1 else 2 * Pow2(n - 1)
  }

  lemma Pow2Positive(n: nat)
    ensures Pow2(n) > 0
  {
  }

  function Pow256(n: nat): nat {
    if n == 0 then 1 else 256 * Pow256(n - 1)
  }

  lemma Pow256Positive(n: nat)
    ensures Pow256(n) > 0
  {
  }

  /** The n low-order bytes of v, most significant first. */
  function PutBE(v: nat, n: nat): (b: seq<byte>)
    ensures |b| == n
  {
    seq(n, i requires 0 <= i < n => DigitBE(v, n - 1 - i))
  }

  function DigitBE(v: nat, place: nat): byte {
    Pow256Positive(place);
    v / Pow256(place) % 256
  }

  lemma DivDiv(v: nat, m: nat)
    requires m > 0
    ensures v / 256 / m == v / (256 * m)
  {
    var q := v / 256 / m;
    var r := v / 256 - q * m;
    assert 0 <= r < m;
    assert v == 256 * (q * m + r) + v % 256;
    assert 256 * (q * m + r) == (256 * m) * q + 256 * r;
    QuotientUnique(v, 256 * m, q, 256 * r + v % 256);
  }

  lemma QuotientUnique(a: nat, m: nat, q: nat, r: nat)
    requires r < m && a == m * q + r
    ensures a / m == q && a % m == r
  {
    var d := a / m - q;
    assert m * d == r - a % m;
    if d != 0 {
      MultipleTooLarge(m, d);
    }
  }

  lemma MultipleTooLarge(m: nat, k: int)
    requires k != 0
    ensures m * k >= m || m * k + m <= 0
  {
  }

  lemma PutBEDigit(v: nat, place: nat)
    requires place > 0
    ensures DigitBE(v, place) == DigitBE(v / 256, place - 1)
  {
    Pow256Positive(place - 1);
    DivDiv(v, Pow256(place - 1));
  }

  lemma PutBESplit(v: nat, n: nat)
    requires n > 0
    ensures PutBE(v, n) == PutBE(v / 256, n - 1) + [v % 256]
  {
    forall i | 0 <= i < n - 1
      ensures PutBE(v, n)[i] == PutBE(v / 256, n - 1)[i]
    {
      PutBEDigit(v, n - 1 - i);
    }
    assert DigitBE(v, 0) == v % 256;
  }

  function GetBE(b: seq<byte>): nat {
    if b == [] then 0 else GetBE(b[..|b| - 1]) * 256 + b[|b| - 1]
  }

  lemma {:induction false} GetPutBE(v: nat, n: nat)
    requires v < Pow256(n)
    ensures GetBE(PutBE(v, n)) == v
  {
    if n == 0 {
    } else {
      PutBESplit(v, n);
      GetPutBE(v / 256, n - 1);
    }
  }

  lemma {:induction false} PutGetBE(b: seq<byte>)
    ensures GetBE(b) < Pow256(|b|)
    ensures PutBE(GetBE(b), |b|) == b
  {
    if b == [] {
    } else {
      var hi, lo := GetBE(b[..|b| - 1]), b[|b| - 1];
      PutGetBE(b[..|b| - 1]);
      assert (hi * 256 + lo) / 256 == hi && (hi * 256 + lo) % 256 == lo;
      PutBESplit(GetBE(b), |b|);
    }
  }

  /** Powers of 256 that bound the integer widths above. */
  lemma WidthBounds()
    ensures Pow256(1) == 0x100 && Pow256(2) == 0x1_0000 && Pow256(4) == 0x1_0000_0000
    ensures Pow256(8) == 0x1_0000_0000_0000_0000
  {
  }

  /** Four bytes as a number, most significant first. */
  function U32(b: seq<byte>): u32
    requires |b| == 4
  {
    PutGetBE(b);
    WidthBounds();
    GetBE(b)
  }
}
