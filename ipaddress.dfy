/**
 * The part of Python's `ipaddress` library that the firewall initialiser
 * uses: IPv4 addresses as numbers below 2^32, IPv4 networks as a base address
 * and a prefix length (section 3.1 of RFC 4632), the network an address
 * belongs to once its host bits are cleared (`strict=False`), the supernet,
 * and the arithmetic facts about aligned blocks that the collapse proof needs.
 */
module Ipaddress {

  /** An IPv4 address as an unsigned 32-bit number. */
  type Addr = a: nat | a < 0x1_0000_0000

  type PrefixLen = n: nat | n <= 32

  /** An IPv4 network `base/len`; Python keeps `base` with its host bits
      cleared, which is `Canonical` below. */
  datatype Network = Network(base: Addr, len: PrefixLen)

  function Pow2(n: nat): (r: nat)
    ensures r >= 1
  {
    if n == 0 then 1 else 2 * Pow2(n - 1)
  }

  /** The number of addresses in a network with prefix length `len`. */
  function Size(len: PrefixLen): nat {
    Pow2(32 - len)
  }

  /** The last address of the network (Python's `broadcast_address`). */
  function Broadcast(n: Network): int {
    n.base + Size(n.len) - 1
  }

  /** Address `a` lies in network `n`. */
  predicate Contains(n: Network, a: Addr) {
    n.base <= a < n.base + Size(n.len)
  }

  /** The host bits of the base are zero. */
  predicate Canonical(n: Network) {
    LowBitsZero(n.base, 32 - n.len)
  }

  /** The lowest `bits` bits of `b` are zero. */
  predicate LowBitsZero(b: nat, bits: nat) {
    bits == 0 || (b % 2 == 0 && LowBitsZero(b / 2, bits - 1))
  }

  /** Network `inner` lies within network `outer`, by address range. */
  predicate Within(inner: Network, outer: Network) {
    outer.base <= inner.base && inner.base + Size(inner.len) <= outer.base + Size(outer.len)
  }

  /** The network of `base/len` with the host bits cleared
      (`ip_network(..., strict=False)`). */
  function Masked(n: Network): (m: Network)
    ensures Canonical(m) && m.len == n.len
    ensures Contains(m, n.base)
    ensures Canonical(n) ==> m == n
  {
    var s := Size(n.len);
    ClearLowBitsMod(n.base, 32 - n.len);
    RoundDown(n.base, s);
    var m := Network(ClearLowBits(n.base, 32 - n.len), n.len);
    CanonicalMod(m);
    CanonicalMod(n);
    m
  }

  /** `b` with its lowest `bits` bits set to zero. */
  function ClearLowBits(b: nat, bits: nat): (r: nat)
    ensures r <= b
  {
    if bits == 0 then b else 2 * ClearLowBits(b / 2, bits - 1)
  }

  /** Python's `supernet()`: the network one bit shorter that holds `n`;
      a `/0` network is its own supernet. */
  function Supernet(n: Network): (p: Network)
    requires Canonical(n)
    ensures Canonical(p)
    ensures n.len == 0 ==> p == n
    ensures n.len > 0 ==> p.len == n.len - 1
    ensures Within(n, p)
  {
    if n.len == 0 then n
    else
      var p := Masked(Network(n.base, n.len - 1));
      Laminar(p, n);
      p
  }

  /** Python's `__lt__` on networks: by base address, then by netmask, and a
      shorter prefix has the smaller netmask. */
  predicate Before(x: Network, y: Network) {
    x.base < y.base || (x.base == y.base && x.len < y.len)
  }

  // ---------------------------------------------------------------------
  // Arithmetic on aligned blocks
  // ---------------------------------------------------------------------

  lemma MulMono(x: int, y: int, z: nat)
    requires x <= y
    ensures x * z <= y * z
  {
    var d := y - x;
    assert y * z == x * z + d * z;
  }

  /** A non-zero multiple of `d` is at least `d` away from zero. */
  lemma MulAwayFromZero(x: int, d: int)
    requires d >= 0
    ensures x >= 1 ==> x * d >= d
    ensures x <= -1 ==> x * d <= -d
  {
    if x >= 1 {
      MulMono(1, x, d);
    }
    if x <= -1 {
      MulMono(x, -1, d);
    }
  }

  /** Euclidean division is determined by quotient and remainder. */
  lemma DivUnique(a: int, d: int, q: int, r: int)
    requires d > 0 && 0 <= r < d && a == q * d + r
    ensures a / d == q && a % d == r
  {
    var q0, r0 := a / d, a % d;
    assert a == q0 * d + r0 && 0 <= r0 < d;
    assert (q0 - q) * d == r - r0;
    MulAwayFromZero(q0 - q, d);
  }

  /** Rounding down to a multiple of `s` stays within one block of `b`. */
  lemma RoundDown(b: nat, s: nat)
    requires s > 0
    ensures (b - b % s) % s == 0
    ensures b - b % s <= b < b - b % s + s
    ensures b % s == 0 ==> b - b % s == b
  {
    var q := b / s;
    assert b - b % s == q * s;
    DivUnique(q * s, s, q, 0);
  }

  /** Dividing by `x` and then by `y` is dividing by `x * y`. */
  lemma DivDiv(a: nat, x: nat, y: nat)
    requires x > 0 && y > 0
    ensures a / (x * y) == (a / x) / y
  {
    var q1, r1 := a / x, a % x;
    var q2, r2 := q1 / y, q1 % y;
    assert a == q1 * x + r1;
    assert q1 == q2 * y + r2;
    MulMono(r2, y - 1, x);
    assert q1 * x == q2 * (x * y) + r2 * x;
    DivUnique(a, x * y, q2, r2 * x + r1);
  }

  lemma Pow2Add(a: nat, b: nat)
    ensures Pow2(a + b) == Pow2(a) * Pow2(b)
  {
    if a > 0 {
      Pow2Add(a - 1, b);
    }
  }

  lemma Pow2Mono(a: nat, b: nat)
    requires a <= b
    ensures Pow2(a) <= Pow2(b)
  {
    Pow2Add(a, b - a);
    MulMono(1, Pow2(b - a), Pow2(a));
  }

  /** The whole IPv4 address space has 2^32 addresses. */
  lemma SizeBound(len: PrefixLen)
    ensures Size(len) <= 0x1_0000_0000 && Size(0) == 0x1_0000_0000
  {
    Pow2Of32();
    Pow2Mono(32 - len, 32);
  }

  lemma Pow2Of32()
    ensures Pow2(32) == 0x1_0000_0000
  {
    assert Pow2(2) == 4;
    Pow2Add(2, 2);
    assert Pow2(4) == 16;
    Pow2Add(4, 4);
    assert Pow2(8) == 256;
    Pow2Add(8, 8);
    assert Pow2(16) == 65536;
    Pow2Add(16, 16);
  }

  /** For a canonical network, containment is equality of the quotient by the
      block size: the address agrees with the base on the first `len` bits. */
  lemma ContainsByQuotient(n: Network, a: Addr)
    requires Canonical(n)
    ensures Contains(n, a) <==> a / Size(n.len) == n.base / Size(n.len)
  {
    var s := Size(n.len);
    var q := n.base / s;
    CanonicalBase(n);
    if Contains(n, a) {
      DivUnique(a, s, q, a - n.base);
    }
    if a / s == q {
      assert a == q * s + a % s;
    }
  }

  /** Blocks of `s` addresses starting at multiples of `s`: the block `q` and
      the run of `k` blocks from `m` are disjoint or nested. */
  lemma AlignedRunsLaminar(m: int, k: nat, q: int, s: nat)
    ensures || (q + 1) * s <= m * s
            || (m + k) * s <= q * s
            || (m * s <= q * s && (q + 1) * s <= (m + k) * s)
  {
    if q + 1 <= m {
      MulMono(q + 1, m, s);
    } else if m + k <= q {
      MulMono(m + k, q, s);
    } else {
      MulMono(m, q, s);
      MulMono(q + 1, m + k, s);
    }
  }

  /** A canonical base is its quotient times the block size. */
  lemma CanonicalBase(n: Network)
    requires Canonical(n)
    ensures n.base == (n.base / Size(n.len)) * Size(n.len)
  {
    CanonicalMod(n);
  }

  /** Canonical means the base is a multiple of the block size. */
  lemma CanonicalMod(n: Network)
    ensures Canonical(n) <==> n.base % Size(n.len) == 0
  {
    LowBitsZeroMod(n.base, 32 - n.len);
  }

  lemma {:induction false} LowBitsZeroMod(b: nat, bits: nat)
    ensures LowBitsZero(b, bits) <==> b % Pow2(bits) == 0
  {
    if bits > 0 {
      LowBitsZeroMod(b / 2, bits - 1);
      ModDouble(b, Pow2(bits - 1));
    }
  }

  lemma {:induction false} ClearLowBitsMod(b: nat, bits: nat)
    ensures ClearLowBits(b, bits) == b - b % Pow2(bits)
  {
    if bits > 0 {
      ClearLowBitsMod(b / 2, bits - 1);
      ModDouble(b, Pow2(bits - 1));
    }
  }

  /** The remainder by `2 * p` from the remainders by 2 and then by `p`. */
  lemma ModDouble(b: nat, p: nat)
    requires p > 0
    ensures b % (2 * p) == 2 * ((b / 2) % p) + b % 2
  {
    var h := b / 2;
    assert b == 2 * h + b % 2;
    assert h == (h / p) * p + h % p;
    assert b == (h / p) * (2 * p) + (2 * (h % p) + b % 2);
    DivUnique(b, 2 * p, h / p, 2 * (h % p) + b % 2);
  }

  /** The block size of a shorter prefix is a power-of-two multiple. */
  lemma SizeRatio(short: PrefixLen, long: PrefixLen)
    requires short <= long
    ensures Size(short) == Pow2(long - short) * Size(long)
  {
    Pow2Add(long - short, 32 - long);
  }

  /** A block of `s` addresses at a multiple of `s` and a block of `k * s`
      addresses at a multiple of `k * s` are disjoint or nested. */
  lemma AlignedBlocksLaminar(b1: int, so: nat, b2: int, s: nat, k: nat)
    requires so == k * s && s >= 1 && so >= 1 && k >= 1
    requires b1 == (b1 / so) * so && b2 == (b2 / s) * s
    ensures b2 + s <= b1 || b1 + so <= b2 || (b1 <= b2 && b2 + s <= b1 + so)
  {
    var q1, q2 := b1 / so, b2 / s;
    var m := q1 * k;
    assert b1 == m * s;
    assert b1 + so == (m + k) * s;
    assert b2 + s == (q2 + 1) * s;
    AlignedRunsLaminar(m, k, q2, s);
  }

  /** Two canonical networks are either disjoint or nested: the shorter
      prefix holds the longer one. */
  lemma Laminar(outer: Network, inner: Network)
    requires Canonical(outer) && Canonical(inner) && outer.len <= inner.len
    ensures || inner.base + Size(inner.len) <= outer.base
            || outer.base + Size(outer.len) <= inner.base
            || Within(inner, outer)
  {
    SizeRatio(outer.len, inner.len);
    CanonicalBase(outer);
    CanonicalBase(inner);
    AlignedBlocksLaminar(outer.base, Size(outer.len), inner.base, Size(inner.len),
                         Pow2(inner.len - outer.len));
  }

  /** Multiplying by a positive number preserves order both ways. */
  lemma MulCancel(x: int, y: int, s: int)
    requires s > 0
    ensures x * s <= y * s ==> x <= y
    ensures x * s < y * s ==> x < y
  {
    if x > y {
      MulMono(y + 1, x, s);
      assert (y + 1) * s == y * s + s;
    }
    if x >= y {
      MulMono(y, x, s);
    }
  }

  /** Two different blocks of `s` addresses, aligned to `s`, inside one block
      of `2 * s` addresses aligned to `2 * s`, cover it. */
  lemma AlignedHalvesCover(a: int, bx: int, bz: int, bp: int, s: int)
    requires s >= 1
    requires bx == (bx / s) * s && bz == (bz / s) * s && bp == (bp / (2 * s)) * (2 * s)
    requires bx != bz
    requires bp <= bx && bx + s <= bp + 2 * s
    requires bp <= bz && bz + s <= bp + 2 * s
    requires bp <= a < bp + 2 * s
    ensures (bx <= a < bx + s) || (bz <= a < bz + s)
  {
    var p := bp / (2 * s);
    var qx, qy, qa := bx / s, bz / s, a / s;
    assert bp == (2 * p) * s;
    assert bp + 2 * s == (2 * p + 2) * s;
    assert bx + s == (qx + 1) * s;
    assert bz + s == (qy + 1) * s;
    MulCancel(2 * p, qx, s);
    MulCancel(qx + 1, 2 * p + 2, s);
    MulCancel(2 * p, qy, s);
    MulCancel(qy + 1, 2 * p + 2, s);
    assert a == qa * s + a % s;
    assert a < (qa + 1) * s;
    MulCancel(2 * p, qa + 1, s);
    MulCancel(qa, 2 * p + 2, s);
    assert qa == qx || qa == qy;
  }

  /** Two different canonical networks with the same supernet together cover
      it: they are its two halves (or one of them is the supernet `/0`). */
  lemma HalvesCoverSupernet(x: Network, y: Network, a: Addr)
    requires Canonical(x) && Canonical(y) && x != y
    requires Supernet(x) == Supernet(y)
    requires Contains(Supernet(x), a)
    ensures Contains(x, a) || Contains(y, a)
  {
    if x.len > 0 && y.len > 0 {
      var p := Supernet(x);
      var s := Size(x.len);
      assert Size(p.len) == 2 * s;
      CanonicalBase(x);
      CanonicalBase(y);
      CanonicalBase(p);
      AlignedHalvesCover(a, x.base, y.base, p.base, s);
    }
  }
}
