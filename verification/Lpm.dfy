/** Longest-prefix match of internal/dptunnel/lpm.go: a mutable radix trie and the linear scan it replaces. */
module Lpm {
  import opened Bytes

  type Ip = seq<byte>

  /** Address bits, most significant first. */
  type Key = seq<nat>

  /** ip[i/8] >> (7 - i%8) & 1 */
  function BitAt(ip: Ip, i: nat): (b: nat)
    requires i < 8 * |ip|
    ensures b < 2
  {
    Pow2Positive(7 - i % 8);
    ip[i / 8] / Pow2(7 - i % 8) % 2
  }

  function Bits(ip: Ip): (k: Key)
    ensures |k| == 8 * |ip|
    ensures forall i :: 0 <= i < |k| ==> k[i] < 2
  {
    seq(8 * |ip|, i requires 0 <= i < 8 * |ip| => BitAt(ip, i))
  }

  // ---- Address bits in numbers ----

  /** The number a path spells. */
  function Val(k: Key): nat {
    if k == [] then 0 else 2 * Val(k[..|k| - 1]) + k[|k| - 1]
  }

  lemma {:induction false} ValInjective(a: Key, b: Key)
    requires |a| == |b| && Val(a) == Val(b)
    requires forall i :: 0 <= i < |a| ==> a[i] < 2 && b[i] < 2
    ensures a == b
  {
    if a != [] {
      var n := |a| - 1;
      ValInjective(a[..n], b[..n]);
      assert a == a[..n] + [a[n]] && b == b[..n] + [b[n]];
    }
  }

  lemma Half(v: nat, m: nat)
    requires m > 0
    ensures v / (2 * m) == v / m / 2
  {
    var h, r := v / m, v % m;
    var q := h / 2;
    assert v == m * h + r;
    TwiceOf(m, q);
    if h % 2 == 0 {
      assert h == 2 * q;
      QuotientUnique(v, 2 * m, q, r);
    } else {
      assert h == 2 * q + 1;
      QuotientUnique(v, 2 * m, q, m + r);
    }
  }

  lemma TwiceOf(m: nat, q: nat)
    ensures m * (2 * q) == (2 * m) * q && m * (2 * q + 1) == (2 * m) * q + m
  {
  }

  lemma Pow2Small()
    ensures Pow2(0) == 1 && Pow2(1) == 2 && Pow2(2) == 4 && Pow2(3) == 8 && Pow2(4) == 16 && Pow2(5) == 32
    ensures Pow2(6) == 64 && Pow2(7) == 128
  {
  }

  lemma {:induction false} Pow2Byte(n: nat)
    ensures Pow2(8 + n) == 256 * Pow2(n)
  {
    if n == 0 {
      Pow2Small();
      assert Pow2(8) == 2 * Pow2(7);
    } else {
      Pow2Byte(n - 1);
    }
  }

  lemma AddMultiple(p: nat, t: nat, l: nat)
    requires p > 0
    ensures (p * t + l) / p == t + l / p
  {
    var x, y := l / p, l % p;
    assert p * t + p * x == p * (t + x);
    QuotientUnique(p * t + l, p, t + x, y);
  }

  /** 256 is an even multiple of the weight of a bit of a byte. */
  lemma EvenMultiple(hi: nat, s: nat) returns (t: nat)
    requires s < 8
    ensures Pow2(s) > 0 && hi * 256 == Pow2(s) * (2 * t)
  {
    ByteSplit(s);
    hide Pow2;
    var p, q := Pow2(s), Pow2(7 - s);
    t := hi * q;
    assert hi * (p * (2 * q)) == p * (2 * (hi * q));
  }

  lemma SameParity(t: nat, x: nat)
    ensures (2 * t + x) % 2 == x % 2
  {
  }

  /** A bit of the last byte is a bit of the whole number. */
  lemma LowBit(hi: nat, lo: byte, s: nat)
    requires s < 8
    ensures Pow2(s) > 0 && (hi * 256 + lo) / Pow2(s) % 2 == lo / Pow2(s) % 2
  {
    hide Pow2;
    var t := EvenMultiple(hi, s);
    AddMultiple(Pow2(s), 2 * t, lo);
    SameParity(t, lo / Pow2(s));
  }

  lemma ByteSplit(s: nat)
    requires s < 8
    ensures Pow2(s) > 0 && Pow2(7 - s) > 0 && Pow2(s) * (2 * Pow2(7 - s)) == 256
  {
    Pow2Small();
  }

  /** Bit i of an address, counted from the most significant one. */
  lemma {:induction false} BitMeaning(ip: Ip, i: nat)
    requires i < 8 * |ip|
    ensures Pow2(8 * |ip| - 1 - i) > 0 && BitAt(ip, i) == GetBE(ip) / Pow2(8 * |ip| - 1 - i) % 2
    decreases |ip|
  {
    var n := |ip| - 1;
    var hi, lo := GetBE(ip[..n]), ip[n];
    assert GetBE(ip) == hi * 256 + lo;
    hide Pow2, GetBE;
    Pow2Positive(8 * |ip| - 1 - i);
    if i >= 8 * n {
      assert i / 8 == n && 8 * |ip| - 1 - i == 7 - i % 8;
      LowBit(hi, lo, 7 - i % 8);
    } else {
      var s := 8 * n - 1 - i;
      assert BitAt(ip[..n], i) == BitAt(ip, i);
      hide BitAt;
      BitMeaning(ip[..n], i);
      Pow2Byte(s);
      DivDiv(hi * 256 + lo, Pow2(s));
      assert (hi * 256 + lo) / 256 == hi;
    }
  }

  lemma {:induction false} Pow2Bytes(n: nat)
    ensures Pow2(8 * n) == Pow256(n)
  {
    if n > 0 {
      Pow2Bytes(n - 1);
      Pow2Byte(8 * (n - 1));
    }
  }

  /** The first m bits of an address are its number without the others. */
  lemma {:induction false} FirstBits(ip: Ip, m: nat)
    requires m <= 8 * |ip|
    ensures Pow2(8 * |ip| - m) > 0 && Val(Bits(ip)[..m]) == GetBE(ip) / Pow2(8 * |ip| - m)
    decreases m
  {
    hide BitAt, Pow2, GetBE;
    var rest := 8 * |ip| - m;
    Pow2Positive(rest);
    if m == 0 {
      PutGetBE(ip);
      Pow2Bytes(|ip|);
      QuotientUnique(GetBE(ip), Pow2(rest), 0, GetBE(ip));
    } else {
      FirstBits(ip, m - 1);
      BitMeaning(ip, m - 1);
      assert Bits(ip)[..m][..m - 1] == Bits(ip)[..m - 1] && Bits(ip)[..m][m - 1] == BitAt(ip, m - 1);
      Pow2Next(rest);
      NextBit(GetBE(ip), Pow2(rest), Val(Bits(ip)[..m - 1]), BitAt(ip, m - 1));
    }
  }

  lemma NextBit(v: nat, p: nat, high: nat, b: nat)
    requires p > 0 && high == v / (2 * p) && b == v / p % 2
    ensures 2 * high + b == v / p
  {
    Half(v, p);
  }

  lemma Pow2Next(n: nat)
    ensures Pow2(n + 1) == 2 * Pow2(n)
  {
  }

  class LpmNode<V> {
    var child: seq<LpmNode?<V>>
    var hasValue: bool
    var value: Option<V>
    /** The bits that lead from the root to this node. */
    ghost const path: Key

    constructor (ghost path: Key)
      ensures child == [null, null] && !hasValue && value == None && this.path == path
    {
      child, hasValue, value := [null, null], false, None;
      this.path := path;
    }
  }

  /** The prefixes of a trie with their values. */
  type Table<V> = map<Key, V>

  /** The value at the longest prefix of key, of at most n bits, that the table has. */
  function Longest<V>(t: Table<V>, key: Key, n: nat): Option<V>
    requires n <= |key|
  {
    if key[..n] in t then Some(t[key[..n]]) else if n == 0 then None else Longest(t, key, n - 1)
  }

  /** The path one bit longer. */
  function Kid(p: Key, b: nat): Key {
    p + [b]
  }

  /** A path extends one path only, by one bit. */
  lemma KidOf(p: Key, b: nat, q: Key, c: nat)
    ensures Kid(p, b) == Kid(q, c) <==> p == q && b == c
    ensures Kid(p, b) != [] && Kid(p, b)[..|Kid(p, b)| - 1] == p
    ensures Kid(Kid(p, b), c) != p && Kid(p, b) != p
  {
    assert Kid(p, b)[|p|] == b && Kid(q, c)[|q|] == c;
    assert Kid(q, c)[..|Kid(q, c)| - 1] == q;
    assert Kid(p, b)[..|Kid(p, b)| - 1] == p;
    assert |Kid(Kid(p, b), c)| == |p| + 2;
  }

  class LpmTrie<V> {
    const root: LpmNode<V>
    const bits: nat
    /** Every node under the path that leads to it. */
    ghost var nodes: map<Key, LpmNode<V>>
    /** What the trie stands for: the inserted prefixes. */
    ghost var contents: Table<V>

    ghost function Repr(): set<object>
      reads this
    {
      {this} + nodes.Values
    }

    ghost predicate Valid()
      reads Repr()
    {
      && [] in nodes && nodes[[]] == root
      && (forall p {:trigger NodeValid(p)} :: p in nodes ==> NodeValid(p))
      && contents.Keys <= nodes.Keys
    }

    /** A node's children are the paths that extend its own, and its value is the table's. */
    ghost predicate NodeValid(p: Key)
      requires p in nodes
      reads this, nodes[p]
    {
      var n := nodes[p];
      && |n.child| == 2 && n.path == p
      && (p != [] ==> p[..|p| - 1] in nodes)
      && ChildValid(n.child[0], Kid(p, 0)) && ChildValid(n.child[1], Kid(p, 1))
      && (n.hasValue <==> p in contents)
      && (n.hasValue ==> n.value == Some(contents[p]))
    }

    ghost predicate ChildValid(c: LpmNode?<V>, p: Key)
      reads this
    {
      if c == null then p !in nodes else p in nodes && c == nodes[p]
    }

    constructor (bits: nat)
      ensures Valid() && fresh(Repr()) && this.bits == bits
      ensures contents == map[]
    {
      root := new LpmNode<V>([]);
      this.bits := bits;
      new;
      nodes := map[[] := root];
      contents := map[];
    }

    /** insert: keys of the other family and impossible mask lengths are skipped. */
    method Insert(ip: Ip, ones: int, value: V)
      requires Valid()
      modifies Repr()
      ensures Valid() && fresh(Repr() - old(Repr()))
      ensures contents == if |ip| * 8 != bits || ones < 0 || ones > bits then old(contents)
                          else old(contents)[Bits(ip)[..ones] := value]
    {
      hide BitAt;
      if |ip| * 8 != bits || ones < 0 || ones > bits {
        return;
      }
      ghost var key := Bits(ip);
      var n := root;
      var i := 0;
      while i < ones
        invariant 0 <= i <= ones
        invariant Valid() && fresh(Repr() - old(Repr()))
        invariant key[..i] in nodes && n == nodes[key[..i]]
        invariant contents == old(contents)
      {
        var b := BitAt(ip, i);
        assert b == key[i] && key[..i + 1] == key[..i] + [b];
        assert NodeValid(key[..i]);
        if n.child[b] == null {
          n := Grow(n, key[..i], b);
        } else {
          n := n.child[b];
        }
        i := i + 1;
      }
      Store(n, key[..ones], value);
    }

    /** n.child[b] = &lpmNode{} */
    method Grow(n: LpmNode<V>, ghost p: Key, b: nat) returns (m: LpmNode<V>)
      requires Valid() && p in nodes && nodes[p] == n && b < 2 && Kid(p, b) !in nodes
      modifies this`nodes, n`child
      ensures Valid() && fresh(m) && nodes == old(nodes)[Kid(p, b) := m]
      ensures contents == old(contents)
    {
      hide Kid;
      ghost var path := Kid(p, b);
      assert NodeValid(p);
      ParentPresent(Kid(path, 0));
      ParentPresent(Kid(path, 1));
      KidOf(path, 0, path, 1);
      KidOf(path, 1, path, 0);
      m := new LpmNode<V>(path);
      n.child := n.child[b := m];
      nodes := nodes[path := m];
      forall q | q in nodes
        ensures NodeValid(q)
      {
        KidOf(p, b, q, 0);
        KidOf(p, b, q, 1);
        if q != path {
          assert old(NodeValid(q));
        }
      }
    }

    method Store(n: LpmNode<V>, ghost p: Key, value: V)
      requires Valid() && p in nodes && nodes[p] == n
      modifies this`contents, n`hasValue, n`value
      ensures Valid() && contents == old(contents)[p := value]
    {
      assert NodeValid(p);
      n.hasValue := true;
      n.value := Some(value);
      contents := contents[p := value];
      forall q | q in nodes
        ensures NodeValid(q)
      {
        assert old(NodeValid(q));
      }
    }

    /** longestPrefix */
    method LongestPrefix(ip: Ip) returns (best: Option<V>)
      requires Valid()
      ensures best == if |ip| * 8 != bits then None else Longest(contents, Bits(ip), bits)
    {
      hide BitAt;
      if |ip| * 8 != bits {
        return None;
      }
      ghost var key := Bits(ip);
      var n: LpmNode?<V> := root;
      best := None;
      var i := 0;
      while i <= bits
        invariant 0 <= i <= bits + 1
        invariant i <= bits ==> ChildValid(n, key[..i])
        invariant i == 0 ==> best == None
        invariant i > 0 ==> best == Longest(contents, key, i - 1)
        invariant i == bits + 1 ==> best == Longest(contents, key, bits)
        invariant i == 0 ==> n != null
      {
        if n == null {
          NothingBelow(key, i, bits);
          break;
        }
        assert NodeValid(key[..i]);
        if n.hasValue {
          best := n.value;
        }
        assert best == Longest(contents, key, i);
        if i == bits {
          break;
        }
        assert key[..i + 1] == key[..i] + [key[i]] && BitAt(ip, i) == key[i];
        n := n.child[BitAt(ip, i)];
        i := i + 1;
      }
    }

    /** Past a missing node there are no prefixes, so the search may stop. */
    lemma NothingBelow(key: Key, i: nat, n: nat)
      requires Valid() && 0 < i <= n <= |key| && key[..i] !in nodes
      ensures Longest(contents, key, n) == Longest(contents, key, i - 1)
      ensures key[..n] !in nodes
      decreases n
    {
      if n > i {
        NothingBelow(key, i, n - 1);
        assert key[..n][..n - 1] == key[..n - 1];
        ParentPresent(key[..n]);
      }
    }

    lemma ParentPresent(p: Key)
      requires Valid()
      ensures p in nodes && p != [] ==> p[..|p| - 1] in nodes
    {
      if p in nodes {
        assert NodeValid(p);
      }
    }
  }

  // ---- The linear scan ----

  /** One announced prefix: the first `ones` bits of ip. */
  datatype Prefix<V> = Prefix(ip: Ip, ones: int, value: V)

  predicate Usable<V>(p: Prefix<V>, bits: nat) {
    |p.ip| * 8 == bits && 0 <= p.ones <= bits
  }

  predicate Covers<V>(p: Prefix<V>, ip: Ip, bits: nat) {
    Usable(p, bits) && |ip| * 8 == bits && Bits(p.ip)[..p.ones] == Bits(ip)[..p.ones]
  }

  /** An address is in a network when their numbers agree without the bits past the mask. */
  ghost predicate InNet<V>(p: Prefix<V>, ip: Ip, bits: nat) {
    && 8 * |p.ip| == bits && 8 * |ip| == bits && 0 <= p.ones <= bits
    && (Pow2Positive(bits - p.ones); GetBE(p.ip) / Pow2(bits - p.ones) == GetBE(ip) / Pow2(bits - p.ones))
  }

  lemma CoversIsInNet<V>(p: Prefix<V>, ip: Ip, bits: nat)
    ensures Covers(p, ip, bits) <==> InNet(p, ip, bits)
  {
    if Usable(p, bits) && |ip| * 8 == bits {
      hide BitAt;
      FirstBits(p.ip, p.ones);
      FirstBits(ip, p.ones);
      if Val(Bits(p.ip)[..p.ones]) == Val(Bits(ip)[..p.ones]) {
        ValInjective(Bits(p.ip)[..p.ones], Bits(ip)[..p.ones]);
      }
    }
  }

  /** Longest match by scanning every prefix, the later one on a tie. */
  function Scan<V>(ps: seq<Prefix<V>>, ip: Ip, bits: nat): (best: Option<Prefix<V>>)
    ensures best.Some? ==> best.value in ps && Covers(best.value, ip, bits)
  {
    if ps == [] then None else
    var last := ps[|ps| - 1];
    var best := Scan(ps[..|ps| - 1], ip, bits);
    if Covers(last, ip, bits) && (best.None? || best.value.ones <= last.ones) then Some(last) else best
  }

  function InsertInto<V>(t: Table<V>, p: Prefix<V>, bits: nat): Table<V> {
    if Usable(p, bits) then t[Bits(p.ip)[..p.ones] := p.value] else t
  }

  function TableOf<V>(ps: seq<Prefix<V>>, bits: nat): Table<V> {
    if ps == [] then map[] else InsertInto(TableOf(ps[..|ps| - 1], bits), ps[|ps| - 1], bits)
  }

  lemma TableOfAppend<V>(ps: seq<Prefix<V>>, p: Prefix<V>, bits: nat)
    ensures TableOf(ps + [p], bits) == InsertInto(TableOf(ps, bits), p, bits)
  {
    assert (ps + [p])[..|ps|] == ps;
  }

  /** The scan finds the longest network the address is in, the last of its length; none exactly when it is in none. */
  lemma {:induction false} ScanIsLongest<V>(ps: seq<Prefix<V>>, ip: Ip, bits: nat)
    ensures Scan(ps, ip, bits).None? <==> forall i :: 0 <= i < |ps| ==> !InNet(ps[i], ip, bits)
    ensures Scan(ps, ip, bits).Some? ==>
              exists k :: 0 <= k < |ps| && IsBest(ps, k, ip, bits) && ps[k] == Scan(ps, ip, bits).value
  {
    if ps != [] {
      hide Covers, InNet, IsBest;
      var n := |ps| - 1;
      var init := ps[..n];
      ScanIsLongest(init, ip, bits);
      CoversIsInNet(ps[n], ip, bits);
      if Scan(init, ip, bits).Some? {
        var k :| 0 <= k < |init| && IsBest(init, k, ip, bits) && init[k] == Scan(init, ip, bits).value;
        BetterOrSame(ps, k, ip, bits);
        BestIsIn(init, k, ip, bits);
      } else if InNet(ps[n], ip, bits) {
        FirstBest(init, ps[n], ip, bits);
        assert ps == init + [ps[n]];
      }
    }
  }

  lemma BestIsIn<V>(ps: seq<Prefix<V>>, k: nat, ip: Ip, bits: nat)
    requires k < |ps| && IsBest(ps, k, ip, bits)
    ensures InNet(ps[k], ip, bits)
  {
    hide InNet;
  }

  /** One more prefix is the best if the address is in it and it is no shorter than the best so far. */
  lemma BetterOrSame<V>(ps: seq<Prefix<V>>, k: nat, ip: Ip, bits: nat)
    requires k < |ps| - 1 && IsBest(ps[..|ps| - 1], k, ip, bits)
    ensures var last := ps[|ps| - 1];
      IsBest(ps, if InNet(last, ip, bits) && ps[k].ones <= last.ones then |ps| - 1 else k, ip, bits)
  {
    hide InNet;
    var init := ps[..|ps| - 1];
    assert forall i :: 0 <= i < |init| ==> ps[i] == init[i];
  }

  lemma FirstBest<V>(init: seq<Prefix<V>>, p: Prefix<V>, ip: Ip, bits: nat)
    requires InNet(p, ip, bits) && forall i :: 0 <= i < |init| ==> !InNet(init[i], ip, bits)
    ensures IsBest(init + [p], |init|, ip, bits)
  {
    hide InNet;
  }

  ghost predicate IsBest<V>(ps: seq<Prefix<V>>, k: nat, ip: Ip, bits: nat)
    requires k < |ps|
  {
    InNet(ps[k], ip, bits) &&
    forall i :: 0 <= i < |ps| && InNet(ps[i], ip, bits) ==>
                  ps[i].ones < ps[k].ones || (ps[i].ones == ps[k].ones && i <= k)
  }

  // ---- The trie refines the scan ----

  /** The table's entries along key end with `best`. */
  ghost predicate EndsWith<V>(t: Table<V>, key: Key, best: Option<Prefix<V>>) {
    match best
    case None => forall m :: 0 <= m <= |key| ==> key[..m] !in t
    case Some(b) =>
      && 0 <= b.ones <= |key| && key[..b.ones] in t && t[key[..b.ones]] == b.value
      && forall m :: b.ones < m <= |key| ==> key[..m] !in t
  }

  lemma {:induction false} LongestIsEnd<V>(t: Table<V>, key: Key, n: nat, best: Option<Prefix<V>>)
    requires n <= |key| && EndsWith(t, key, best)
    requires best.Some? ==> best.value.ones <= n
    ensures Longest(t, key, n) == if best.None? then None else Some(best.value.value)
  {
    if n > 0 && !(best.Some? && best.value.ones == n) {
      LongestIsEnd(t, key, n - 1, best);
    }
  }

  lemma {:induction false} TableEndsWithScan<V>(ps: seq<Prefix<V>>, ip: Ip, bits: nat)
    requires |ip| * 8 == bits
    ensures EndsWith(TableOf(ps, bits), Bits(ip), Scan(ps, ip, bits))
  {
    hide Bits;
    if ps != [] {
      var init, last := ps[..|ps| - 1], ps[|ps| - 1];
      TableEndsWithScan(init, ip, bits);
      if Usable(last, bits) {
        var key, p := Bits(ip), Bits(last.ip)[..last.ones];
        forall m | 0 <= m <= |key|
          ensures key[..m] == p <==> m == last.ones && Covers(last, ip, bits)
        {
        }
      }
    }
  }

  /** After any sequence of inserts the trie's answer is the linear scan's. */
  lemma TrieRefinesScan<V>(ps: seq<Prefix<V>>, ip: Ip, bits: nat)
    requires |ip| * 8 == bits
    ensures Longest(TableOf(ps, bits), Bits(ip), bits)
         == if Scan(ps, ip, bits).None? then None else Some(Scan(ps, ip, bits).value.value)
  {
    TableEndsWithScan(ps, ip, bits);
    LongestIsEnd(TableOf(ps, bits), Bits(ip), bits, Scan(ps, ip, bits));
  }

  lemma NoTable<V>(bits: nat)
    ensures TableOf<V>([], bits) == map[]
  {
  }

  lemma NoNet<V>(ps: seq<Prefix<V>>, ip: Ip, bits: nat)
    requires |ip| * 8 != bits
    ensures forall k :: 0 <= k < |ps| ==> !InNet(ps[k], ip, bits)
  {
  }

  /**
   * The same on the heap: a trie filled by any sequence of Insert calls answers every address as the scan does, with
   * the value of the longest network the address is in, the last of its length.
   */
  method Lookup<V>(ps: seq<Prefix<V>>, bits: nat, ip: Ip) returns (best: Option<V>)
    ensures |ip| * 8 == bits ==>
            best == if Scan(ps, ip, bits).None? then None else Some(Scan(ps, ip, bits).value.value)
    ensures best == None <==> forall k :: 0 <= k < |ps| ==> !InNet(ps[k], ip, bits)
    ensures best.Some? ==> exists k :: 0 <= k < |ps| && IsBest(ps, k, ip, bits) && best == Some(ps[k].value)
  {
    hide InNet, IsBest, Scan, Longest, TableOf;
    ScanIsLongest(ps, ip, bits);
    if |ip| * 8 != bits {
      NoNet(ps, ip, bits);
    }
    NoTable<V>(bits);
    var t := new LpmTrie<V>(bits);
    for i := 0 to |ps|
      invariant t.Valid() && fresh(t.Repr())
      invariant t.contents == TableOf(ps[..i], bits)
    {
      TableOfAppend(ps[..i], ps[i], bits);
      assert ps[..i + 1] == ps[..i] + [ps[i]] && ps[..0] == [];
      t.Insert(ps[i].ip, ps[i].ones, ps[i].value);
    }
    assert ps[..|ps|] == ps;
    best := t.LongestPrefix(ip);
    if |ip| * 8 == bits {
      TrieRefinesScan(ps, ip, bits);
    }
  }
}
