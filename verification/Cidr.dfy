/** Matching an address against a CIDR block by masking the words of its wire form.

An address is the list of its bits in network order, 32 or 128 of them. A word in network byte
order is 32 consecutive bits of it, whatever the byte order of the machine, and `htonl` makes such
a word from a number. */
module Cidr {
  import opened Basics

  type Bits = seq<bool>

  function Pow2(n: nat): (r: nat)
    ensures r > 0
  {
    if n == 0 then 1 else 2 * Pow2(n - 1)
  }

  /** The number a list of bits stands for, most significant bit first. */
  function Number(s: Bits): nat {
    if s == [] then 0 else 2 * Number(s[..|s| - 1]) + (if s[|s| - 1] then 1 else 0)
  }

  /** The last `width` bits of a number, as they go on the wire. */
  function Wire(v: nat, width: nat): (r: Bits)
    ensures |r| == width
  {
    if width == 0 then [] else Wire(v / 2, width - 1) + [v % 2 == 1]
  }

  /** All bits set, shifted left by `width - bits` and cut to the width. */
  function ShiftedOnes(width: nat, bits: nat): nat
    requires bits <= width
  {
    (Pow2(width) - 1) * Pow2(width - bits) % Pow2(width)
  }

  /** Whether `(x ^ y) & mask` is zero. */
  predicate ZeroUnder(x: Bits, y: Bits, mask: Bits)
    requires |x| == |y| == |mask|
  {
    forall i :: 0 <= i < |x| ==> !((x[i] != y[i]) && mask[i])
  }

  predicate Match4(addr: Bits, net: Bits, bits: nat)
    requires |addr| == |net| == 32 && bits <= 32
  {
    bits == 0 || ZeroUnder(addr, net, Wire(ShiftedOnes(32, bits), 32))
  }

  /** Whole words are compared byte by byte, the incomplete one under a mask. */
  predicate Match6(address: Bits, network: Bits, bits: nat)
    requires |address| == |network| == 128 && bits <= 128
  {
    var whole, part := bits / 32, bits % 32;
    if whole != 0 && address[..32 * whole] != network[..32 * whole] then false
    else if part != 0 && !ZeroUnder(address[32 * whole..][..32], network[32 * whole..][..32], Wire(ShiftedOnes(32, part), 32)) then false
    else true
  }

  // ---------------------------------------------------------------- masks

  lemma {:induction false} Pow2Mono(a: nat, b: nat)
    requires a <= b
    ensures Pow2(a) <= Pow2(b)
  {
    if a < b {
      Pow2Mono(a, b - 1);
    }
  }

  lemma Remainder(p: nat, k: nat)
    requires 0 < k <= p
    ensures (p - 1) * k % p == p - k
  {
    assert (p - 1) * k == (k - 1) * p + (p - k);
    RemainderIs(k - 1, p, p - k);
  }

  lemma RemainderIs(q: nat, p: nat, r: nat)
    requires r < p
    ensures (q * p + r) % p == r
  {
    var v := q * p + r;
    Within(q, p, r);
    Within(v / p, p, v % p);
    SameMultiple(q, v / p, p, v);
  }

  lemma Within(q: nat, p: nat, r: nat)
    requires r < p
    ensures q * p <= q * p + r < (q + 1) * p
  {
  }

  lemma ShiftedOnesIs(width: nat, bits: nat)
    requires bits <= width
    ensures Pow2(width - bits) <= Pow2(width)
    ensures ShiftedOnes(width, bits) == Pow2(width) - Pow2(width - bits)
  {
    Pow2Mono(width - bits, width);
    Remainder(Pow2(width), Pow2(width - bits));
  }

  /** The first `bits` bits of the mask are set, the others are not. */
  lemma {:induction false} WireOfMask(width: nat, bits: nat, i: nat)
    requires bits <= width && i < width && Pow2(width - bits) <= Pow2(width)
    ensures Wire(Pow2(width) - Pow2(width - bits), width)[i] == (i < bits)
    decreases width
  {
    var v := Pow2(width) - Pow2(width - bits);
    if bits == width {
      assert v == 2 * (Pow2(width - 1) - 1) + 1;
      if i < width - 1 {
        Pow2Mono(0, width - 1);
        WireOfMask(width - 1, bits - 1, i);
      }
    } else {
      assert v == 2 * (Pow2(width - 1) - Pow2(width - bits - 1));
      Pow2Mono(width - bits - 1, width - 1);
      if i < width - 1 {
        WireOfMask(width - 1, bits, i);
      }
    }
  }

  lemma ZeroUnderMask(x: Bits, y: Bits, bits: nat)
    requires |x| == |y| && bits <= |x|
    ensures ZeroUnder(x, y, Wire(ShiftedOnes(|x|, bits), |x|)) <==> x[..bits] == y[..bits]
  {
    var mask := Wire(ShiftedOnes(|x|, bits), |x|);
    forall i | 0 <= i < |x| ensures mask[i] == (i < bits) {
      ShiftedOnesIs(|x|, bits);
      WireOfMask(|x|, bits, i);
    }
    if x[..bits] == y[..bits] {
      forall i | 0 <= i < bits ensures x[i] == y[i] {
        assert x[..bits][i] == y[..bits][i];
      }
    }
  }

  // ---------------------------------------------------------------- prefixes

  /** A match is agreement of the first `bits` bits. */
  lemma Match4Prefix(addr: Bits, net: Bits, bits: nat)
    requires |addr| == |net| == 32 && bits <= 32
    ensures Match4(addr, net, bits) <==> addr[..bits] == net[..bits]
  {
    ZeroUnderMask(addr, net, bits);
  }

  lemma SplitPrefix(x: Bits, y: Bits, a: nat, b: nat, width: nat)
    requires |x| == |y| && b <= width && a + width <= |x|
    ensures x[..a + b] == y[..a + b] <==> x[..a] == y[..a] && x[a..][..width][..b] == y[a..][..width][..b]
  {
    assert x[..a + b] == x[..a] + x[a..][..width][..b];
    assert y[..a + b] == y[..a] + y[a..][..width][..b];
    assert x[..a + b][..a] == x[..a] && y[..a + b][..a] == y[..a];
    assert x[..a + b][a..] == x[a..][..width][..b] && y[..a + b][a..] == y[a..][..width][..b];
  }

  lemma Match6Prefix(address: Bits, network: Bits, bits: nat)
    requires |address| == |network| == 128 && bits <= 128
    ensures Match6(address, network, bits) <==> address[..bits] == network[..bits]
  {
    var whole, part := bits / 32, bits % 32;
    assert bits == 32 * whole + part;
    if part != 0 {
      ZeroUnderMask(address[32 * whole..][..32], network[32 * whole..][..32], part);
      SplitPrefix(address, network, 32 * whole, part, 32);
    }
  }

  // ---------------------------------------------------------------- blocks

  lemma {:induction false} NumberBound(s: Bits)
    ensures Number(s) < Pow2(|s|)
  {
    if s != [] {
      NumberBound(s[..|s| - 1]);
    }
  }

  lemma {:induction false} NumberDetermines(s: Bits, t: Bits)
    requires |s| == |t| && Number(s) == Number(t)
    ensures s == t
    decreases |s|
  {
    if s != [] {
      NumberDetermines(s[..|s| - 1], t[..|t| - 1]);
      assert s == s[..|s| - 1] + [s[|s| - 1]] && t == t[..|t| - 1] + [t[|t| - 1]];
    }
  }

  lemma Doubled(p: nat, q: nat, v: nat, b: nat)
    requires p * q <= v < (p + 1) * q && b <= 1
    ensures p * (2 * q) <= 2 * v + b < (p + 1) * (2 * q)
  {
    assert p * (2 * q) == 2 * (p * q) && (p + 1) * (2 * q) == 2 * ((p + 1) * q);
  }

  /** Dropping the last bits is division by a power of two. */
  lemma {:induction false} NumberOfPrefix(s: Bits, k: nat)
    requires k <= |s|
    ensures Number(s[..k]) * Pow2(|s| - k) <= Number(s) < (Number(s[..k]) + 1) * Pow2(|s| - k)
    decreases |s|
  {
    if k == |s| {
      assert s[..k] == s;
    } else {
      var t := s[..|s| - 1];
      assert t[..k] == s[..k];
      NumberOfPrefix(t, k);
      Doubled(Number(s[..k]), Pow2(|t| - k), Number(t), if s[|t|] then 1 else 0);
    }
  }

  /** Where the block of `n` starts. */
  function BlockStart(n: Bits, bits: nat): nat
    requires bits <= |n|
  {
    Number(n[..bits]) * Pow2(|n| - bits)
  }

  lemma SameMultiple(p: nat, q: nat, size: nat, v: nat)
    requires p * size <= v < (p + 1) * size && q * size <= v < (q + 1) * size
    ensures p == q
  {
    if p < q {
      TimesMonotone(p + 1, q, size);
    } else if q < p {
      TimesMonotone(q + 1, p, size);
    }
  }

  /** The start is the number with its last bits cleared. */
  lemma BlockStartAligned(n: Bits, bits: nat)
    requires bits <= |n|
    ensures BlockStart(n, bits) == Number(n) - Number(n) % Pow2(|n| - bits)
  {
    var size, p := Pow2(|n| - bits), Number(n[..bits]);
    NumberOfPrefix(n, bits);
    assert (p + 1) * size == p * size + size;
    RemainderIs(p, size, Number(n) - p * size);
  }

  predicate InBlock(a: Bits, n: Bits, bits: nat)
    requires bits <= |n|
  {
    BlockStart(n, bits) <= Number(a) < BlockStart(n, bits) + Pow2(|n| - bits)
  }

  lemma BlockByPrefix(a: Bits, n: Bits, bits: nat)
    requires |a| == |n| && bits <= |n|
    ensures Number(a[..bits]) == Number(n[..bits]) <==> InBlock(a, n, bits)
  {
    NumberOfPrefix(a, bits);
    SameOrOutside(Number(a[..bits]), Number(n[..bits]), Pow2(|n| - bits), Number(a));
  }

  /** Two addresses agree in their first bits exactly when one lies in the block of the other. */
  lemma PrefixIsBlock(a: Bits, n: Bits, bits: nat)
    requires |a| == |n| && bits <= |n|
    ensures a[..bits] == n[..bits] <==> InBlock(a, n, bits)
  {
    BlockByPrefix(a, n, bits);
    if Number(a[..bits]) == Number(n[..bits]) {
      NumberDetermines(a[..bits], n[..bits]);
    }
  }

  lemma SameOrOutside(p: nat, q: nat, size: nat, v: nat)
    requires p * size <= v < (p + 1) * size
    ensures p == q <==> q * size <= v < q * size + size
  {
    assert (q + 1) * size == q * size + size;
    if q * size <= v < q * size + size {
      SameMultiple(p, q, size, v);
    }
  }

  /** A match means lying in the block of `2^(32 - bits)` addresses that starts at the network address with
      its host part cleared. */
  lemma Match4IsBlock(addr: Bits, net: Bits, bits: nat)
    requires |addr| == |net| == 32 && bits <= 32
    ensures var size := Pow2(32 - bits);
      var start := Number(net) - Number(net) % size;
      Match4(addr, net, bits) <==> start <= Number(addr) < start + size
  {
    Match4Prefix(addr, net, bits);
    PrefixIsBlock(addr, net, bits);
    BlockStartAligned(net, bits);
  }

  lemma Match6IsBlock(address: Bits, network: Bits, bits: nat)
    requires |address| == |network| == 128 && bits <= 128
    ensures var size := Pow2(128 - bits);
      var start := Number(network) - Number(network) % size;
      Match6(address, network, bits) <==> start <= Number(address) < start + size
  {
    Match6Prefix(address, network, bits);
    PrefixIsBlock(address, network, bits);
    BlockStartAligned(network, bits);
  }

  // ---------------------------------------------------------------- relations

  lemma Match4Equivalence(x: Bits, y: Bits, z: Bits, bits: nat)
    requires |x| == |y| == |z| == 32 && bits <= 32
    ensures Match4(x, x, bits)
    ensures Match4(x, y, bits) <==> Match4(y, x, bits)
    ensures Match4(x, y, bits) && Match4(y, z, bits) ==> Match4(x, z, bits)
  {
    Match4Prefix(x, x, bits);
    Match4Prefix(x, y, bits);
    Match4Prefix(y, x, bits);
    Match4Prefix(y, z, bits);
    Match4Prefix(x, z, bits);
  }

  lemma Match6Equivalence(x: Bits, y: Bits, z: Bits, bits: nat)
    requires |x| == |y| == |z| == 128 && bits <= 128
    ensures Match6(x, x, bits)
    ensures Match6(x, y, bits) <==> Match6(y, x, bits)
    ensures Match6(x, y, bits) && Match6(y, z, bits) ==> Match6(x, z, bits)
  {
    Match6Prefix(x, x, bits);
    Match6Prefix(x, y, bits);
    Match6Prefix(y, x, bits);
    Match6Prefix(y, z, bits);
    Match6Prefix(x, z, bits);
  }

  /** A match on more bits is a match on fewer. */
  lemma Match4Shorter(x: Bits, y: Bits, bits: nat, fewer: nat)
    requires |x| == |y| == 32 && fewer <= bits <= 32
    ensures Match4(x, y, bits) ==> Match4(x, y, fewer)
  {
    Match4Prefix(x, y, bits);
    Match4Prefix(x, y, fewer);
    assert x[..fewer] == x[..bits][..fewer] && y[..fewer] == y[..bits][..fewer];
  }

  lemma Match6Shorter(x: Bits, y: Bits, bits: nat, fewer: nat)
    requires |x| == |y| == 128 && fewer <= bits <= 128
    ensures Match6(x, y, bits) ==> Match6(x, y, fewer)
  {
    Match6Prefix(x, y, bits);
    Match6Prefix(x, y, fewer);
    assert x[..fewer] == x[..bits][..fewer] && y[..fewer] == y[..bits][..fewer];
  }
}
