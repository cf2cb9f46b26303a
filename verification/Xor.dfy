/** Zero-padded XOR of byte strings: xorInto of internal/dptunnel/fec.go and its algebra. */
module Xor {
  import opened Bytes

  function Max(a: nat, b: nat): nat {
    if a < b then b else a
  }

  /** a ^ b on the n low bits. */
  function XorBits(a: nat, b: nat, n: nat): (r: nat)
    ensures r < Pow2(n)
    decreases n, a, b
  {
    if n == 0 then 0 else 2 * XorBits(a / 2, b / 2, n - 1) + (a + b) % 2
  }

  function Xor8(a: byte, b: byte): byte {
    ByteRange();
    XorBits(a, b, 8)
  }

  lemma ByteRange()
    ensures Pow2(8) == 0x100
  {
  }

  lemma {:induction false} XorBitsComm(a: nat, b: nat, n: nat)
    ensures XorBits(a, b, n) == XorBits(b, a, n)
  {
    if n > 0 {
      XorBitsComm(a / 2, b / 2, n - 1);
    }
  }

  lemma {:induction false} XorBitsAssoc(a: nat, b: nat, c: nat, n: nat)
    ensures XorBits(XorBits(a, b, n), c, n) == XorBits(a, XorBits(b, c, n), n)
  {
    if n > 0 {
      hide XorBits;
      var l, r := XorBits(a, b, n), XorBits(b, c, n);
      XorBitsHalf(a, b, n);
      XorBitsHalf(b, c, n);
      XorBitsAssoc(a / 2, b / 2, c / 2, n - 1);
      XorBitsHalf(l, c, n);
      XorBitsHalf(a, r, n);
      LowBits(a, b, c, l, r, XorBits(l, c, n), XorBits(a, r, n));
    }
  }

  lemma LowBits(a: nat, b: nat, c: nat, l: nat, r: nat, x: nat, y: nat)
    requires l % 2 == (a + b) % 2 && r % 2 == (b + c) % 2
    requires x % 2 == (l + c) % 2 && y % 2 == (a + r) % 2 && x / 2 == y / 2
    ensures x == y
  {
  }

  lemma XorBitsHalf(a: nat, b: nat, n: nat)
    requires n > 0
    ensures XorBits(a, b, n) / 2 == XorBits(a / 2, b / 2, n - 1)
    ensures XorBits(a, b, n) % 2 == (a + b) % 2
  {
  }

  lemma {:induction false} XorBitsZero(a: nat, n: nat)
    requires a < Pow2(n)
    ensures XorBits(a, 0, n) == a
  {
    if n > 0 {
      XorBitsZero(a / 2, n - 1);
    }
  }

  lemma {:induction false} XorBitsSelf(a: nat, n: nat)
    ensures XorBits(a, a, n) == 0
  {
    if n > 0 {
      XorBitsSelf(a / 2, n - 1);
    }
  }

  lemma HalfDiv(v: nat, m: nat)
    requires m > 0
    ensures v / 2 / m == v / (2 * m)
  {
    var q := v / 2 / m;
    var r := v / 2 - q * m;
    assert 0 <= r < m;
    assert 2 * (q * m + r) == (2 * m) * q + 2 * r;
    QuotientUnique(v, 2 * m, q, 2 * r + v % 2);
  }

  /** The binary digit of weight 2^i. */
  function Digit(v: nat, i: nat): nat {
    Pow2Positive(i);
    v / Pow2(i) % 2
  }

  lemma DigitHalf(v: nat, i: nat)
    ensures Digit(v, i) == if i == 0 then v % 2 else Digit(v / 2, i - 1)
  {
    if i > 0 {
      Pow2Positive(i - 1);
      HalfDiv(v, Pow2(i - 1));
    }
  }

  /** Each binary digit of the result is the sum of the two digits there, without carry. */
  lemma {:induction false} XorBitsAt(a: nat, b: nat, n: nat, i: nat)
    requires i < n
    ensures Digit(XorBits(a, b, n), i) == (Digit(a, i) + Digit(b, i)) % 2
  {
    hide Digit, XorBits;
    XorBitsHalf(a, b, n);
    DigitHalf(XorBits(a, b, n), i);
    DigitHalf(a, i);
    DigitHalf(b, i);
    if i > 0 {
      XorBitsAt(a / 2, b / 2, n - 1, i - 1);
    } else {
      ParitySum(a, b);
    }
  }

  lemma ParitySum(a: nat, b: nat)
    ensures (a + b) % 2 == (a % 2 + b % 2) % 2
  {
  }

  lemma Xor8Laws(a: byte, b: byte, c: byte)
    ensures Xor8(a, b) == Xor8(b, a)
    ensures Xor8(Xor8(a, b), c) == Xor8(a, Xor8(b, c))
    ensures Xor8(a, 0) == a && Xor8(0, a) == a
    ensures Xor8(Xor8(a, b), a) == b
  {
    ByteRange();
    XorBitsComm(a, b, 8);
    XorBitsAssoc(a, b, c, 8);
    XorBitsZero(a, 8);
    XorBitsComm(a, 0, 8);
    XorBitsAssoc(b, a, a, 8);
    XorBitsSelf(a, 8);
    XorBitsZero(b, 8);
  }

  /** The byte at i, zero beyond the end. */
  function At(s: seq<byte>, i: nat): byte {
    if i < |s| then s[i] else 0
  }

  function XorPad(a: seq<byte>, b: seq<byte>): (r: seq<byte>)
    ensures |r| == Max(|a|, |b|)
  {
    seq(Max(|a|, |b|), i requires 0 <= i => Xor8(At(a, i), At(b, i)))
  }

  function PadTo(s: seq<byte>, n: nat): seq<byte>
    requires |s| <= n
  {
    s + seq(n - |s|, _ => 0)
  }

  /** xorInto: dst is overwritten in place when src fits, replaced by a longer copy otherwise. */
  method XorInto(dst: array<byte>, src: seq<byte>) returns (d: array<byte>)
    modifies dst
    ensures d == dst || fresh(d)
    ensures d[..] == XorPad(old(dst[..]), src)
  {
    d := dst;
    if |src| > dst.Length {
      d := new byte[|src|](_ => 0);
      for i := 0 to dst.Length
        invariant d.Length == |src| && fresh(d)
        invariant forall j :: 0 <= j < |src| ==> d[j] == if j < i then old(dst[j]) else 0
        invariant dst[..] == old(dst[..])
      {
        d[i] := dst[i];
      }
    }
    ghost var before := old(dst[..]);
    for i := 0 to |src|
      invariant |src| <= d.Length == Max(|before|, |src|)
      invariant d == dst || fresh(d)
      invariant forall j :: 0 <= j < d.Length ==>
                  d[j] == if j < i then Xor8(At(before, j), At(src, j)) else At(before, j)
    {
      d[i] := Xor8(d[i], src[i]);
    }
    forall j | |src| <= j < d.Length
      ensures Xor8(At(before, j), At(src, j)) == At(before, j)
    {
      Xor8Laws(At(before, j), 0, 0);
    }
  }

  lemma AtXor(a: seq<byte>, b: seq<byte>, i: nat)
    ensures At(XorPad(a, b), i) == Xor8(At(a, i), At(b, i))
  {
    Xor8Laws(0, 0, 0);
  }

  lemma XorComm(a: seq<byte>, b: seq<byte>)
    ensures XorPad(a, b) == XorPad(b, a)
  {
    forall i | 0 <= i < |XorPad(a, b)|
      ensures XorPad(a, b)[i] == XorPad(b, a)[i]
    {
      Xor8Laws(At(a, i), At(b, i), 0);
    }
  }

  lemma XorAssoc(a: seq<byte>, b: seq<byte>, c: seq<byte>)
    ensures XorPad(XorPad(a, b), c) == XorPad(a, XorPad(b, c))
  {
    var l, r := XorPad(XorPad(a, b), c), XorPad(a, XorPad(b, c));
    forall i | 0 <= i < |l|
      ensures l[i] == r[i]
    {
      AtXor(a, b, i);
      AtXor(b, c, i);
      Xor8Laws(At(a, i), At(b, i), At(c, i));
    }
    assert l == r;
  }

  /** (a ^ b) ^ a is b, padded. */
  lemma XorCancel(a: seq<byte>, b: seq<byte>)
    ensures XorPad(XorPad(a, b), a) == PadTo(b, Max(|a|, |b|))
  {
    var l := XorPad(XorPad(a, b), a);
    forall i | 0 <= i < |l|
      ensures l[i] == At(b, i)
    {
      AtXor(a, b, i);
      Xor8Laws(At(a, i), At(b, i), 0);
    }
  }

  lemma XorEmpty(a: seq<byte>)
    ensures XorPad([], a) == a && XorPad(a, []) == a
  {
    forall i | 0 <= i < |a|
      ensures XorPad([], a)[i] == a[i] && XorPad(a, [])[i] == a[i]
    {
      Xor8Laws(a[i], 0, 0);
    }
  }

  // ---- XOR of the bodies of a block ----

  type Bodies = map<u8, seq<byte>>

  /** XOR of the bodies below index n, in index order. */
  function XorBelow(data: Bodies, n: nat): seq<byte>
    requires n <= 256
    decreases n, |data|
  {
    if n == 0 then [] else
    if (n - 1) in data then XorPad(XorBelow(data, n - 1), data[n - 1]) else XorBelow(data, n - 1)
  }

  function XorAll(data: Bodies): seq<byte> {
    XorBelow(data, 256)
  }

  lemma {:induction false} XorBelowSame(data: Bodies, data': Bodies, n: nat)
    requires n <= 256
    requires forall i: u8 :: i < n ==> (i in data <==> i in data') && (i in data ==> data[i] == data'[i])
    ensures XorBelow(data, n) == XorBelow(data', n)
  {
    if n == 0 {
    } else {
      XorBelowSame(data, data', n - 1);
    }
  }

  lemma {:induction false} XorBelowInsert(data: Bodies, i: u8, body: seq<byte>, n: nat)
    requires i < n <= 256 && i !in data
    ensures XorBelow(data[i := body], n) == XorPad(XorBelow(data, n), body)
  {
    var data' := data[i := body];
    if n - 1 == i {
      XorBelowSame(data, data', n - 1);
    } else {
      XorBelowInsert(data, i, body, n - 1);
      if (n - 1) in data {
        var x := XorBelow(data, n - 1);
        XorAssoc(x, body, data[n - 1]);
        XorComm(body, data[n - 1]);
        XorAssoc(x, data[n - 1], body);
      }
    }
  }

  /** The total does not depend on the order in which the bodies arrive. */
  lemma XorAllInsert(data: Bodies, i: u8, body: seq<byte>)
    requires i !in data
    ensures XorAll(data[i := body]) == XorPad(XorAll(data), body)
  {
    XorBelowInsert(data, i, body, 256);
  }

  lemma {:induction false} XorAllLength(data: Bodies, i: u8, n: nat)
    requires i in data && i < n <= 256
    ensures |data[i]| <= |XorBelow(data, n)|
  {
    if n - 1 == i {
    } else {
      XorAllLength(data, i, n - 1);
    }
  }

  lemma {:induction false} XorAllNone(n: nat)
    requires n <= 256
    ensures XorBelow(map[], n) == []
  {
    if n > 0 {
      XorAllNone(n - 1);
    }
  }

  /** XOR of the parity with every body of the map, whatever the order of the iteration. */
  method XorRest(parity: seq<byte>, data: Bodies) returns (rec: seq<byte>)
    ensures rec == XorPad(parity, XorAll(data))
  {
    var acc := new byte[0];
    acc := XorInto(acc, parity);
    XorEmpty(parity);
    XorAllNone(256);
    XorEmpty(parity);
    var todo := data.Keys;
    ghost var done: Bodies := map[];
    while todo != {}
      invariant fresh(acc)
      invariant todo <= data.Keys
      invariant done == map i | i in data && i !in todo :: data[i]
      invariant acc[..] == XorPad(parity, XorAll(done))
      decreases |todo|
    {
      var i :| i in todo;
      XorAllInsert(done, i, data[i]);
      XorAssoc(parity, XorAll(done), data[i]);
      acc := XorInto(acc, data[i]);
      todo := todo - {i};
      done := done[i := data[i]];
    }
    assert done == data;
    rec := acc[..];
  }

  /** Parity of a full block XOR the bodies of all but one gives that one, zero-padded. */
  lemma Recovery(data: Bodies, missing: u8, body: seq<byte>)
    requires missing !in data
    ensures var parity := XorAll(data[missing := body]);
            |body| <= |parity| && XorPad(parity, XorAll(data)) == PadTo(body, |parity|)
  {
    XorAllInsert(data, missing, body);
    XorCancel(XorAll(data), body);
  }

  /** So are the bytes: digit by digit where both strings reach, and the longer string's own beyond the other. */
  lemma XorPadAt(a: seq<byte>, b: seq<byte>, i: nat, bit: nat)
    requires i < |XorPad(a, b)| && bit < 8
    ensures |XorPad(a, b)| == (if |a| < |b| then |b| else |a|)
    ensures i >= |a| ==> XorPad(a, b)[i] == b[i]
    ensures i >= |b| ==> XorPad(a, b)[i] == a[i]
    ensures i < |a| && i < |b| ==> Digit(XorPad(a, b)[i], bit) == (Digit(a[i], bit) + Digit(b[i], bit)) % 2
  {
    hide Digit;
    if i < |a| && i < |b| {
      XorBitsAt(a[i], b[i], 8, bit);
    } else {
      Xor8Laws(if i < |a| then a[i] else b[i], 0, 0);
    }
  }
}
