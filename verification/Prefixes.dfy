/** Address prefixes, their order and containment; a block of a prefix is a quotient by a power of two. */
module Prefixes {
  import opened Addresses

  datatype Prefix = Prefix(addr: Addr, bits: nat)

  function Width(a: Addr): nat {
    match a
    case NoAddr => 0
    case V4(_) => 32
    case V6(_) => 128
  }

  function Pow2(n: nat): (r: nat)
    ensures r > 0
  {
    if n == 0 then 1 else 2 * Pow2(n - 1)
  }

  predicate ValidPrefix(p: Prefix) { !p.addr.NoAddr? && p.bits <= Width(p.addr) }

  /** How many addresses a prefix holds. */
  function Size(p: Prefix): (r: nat)
    requires ValidPrefix(p)
    ensures r > 0
  {
    Pow2(Width(p.addr) - p.bits)
  }

  predicate IsSingle(p: Prefix) { ValidPrefix(p) && p.bits == Width(p.addr) }

  predicate IsMasked(p: Prefix) { ValidPrefix(p) && p.addr.v % Size(p) == 0 }

  function WithValue(a: Addr, v: nat): Addr
    requires !a.NoAddr?
  {
    if a.V4? then V4(v) else V6(v)
  }

  function Masked(p: Prefix): Prefix
    requires ValidPrefix(p)
  {
    Block(p.addr.v, Size(p));
    Prefix(WithValue(p.addr, p.addr.v - p.addr.v % Size(p)), p.bits)
  }

  function HostPrefix(a: Addr): Prefix { Prefix(a, Width(a)) }

  predicate Contains(p: Prefix, a: Addr) {
    ValidPrefix(p) && !a.NoAddr? && Width(a) == Width(p.addr) && a.v / Size(p) == p.addr.v / Size(p)
  }

  lemma PowSum(a: nat, b: nat)
    ensures Pow2(1) == 2 && Pow2(a + b) == Pow2(a) * Pow2(b)
    decreases a
  {
    if a > 0 {
      PowSum(a - 1, b);
      assert Pow2(a) * Pow2(b) == 2 * (Pow2(a - 1) * Pow2(b));
    }
  }

  /** A prefix holds 2^(width - bits) addresses of its own family, from its first on. */
  lemma ContainsRange(p: Prefix, a: Addr)
    requires ValidPrefix(p)
    ensures var n := Pow2((if p.addr.V4? then 32 else 128) - p.bits);
      Contains(p, a) <==>
      && (a.V4? <==> p.addr.V4?) && (a.V6? <==> p.addr.V6?)
      && n * (p.addr.v / n) <= a.v < n * (p.addr.v / n) + n
  {
    hide Pow2;
    if !a.NoAddr? {
      InBlock(a.v, p.addr.v, Size(p));
    }
  }

  lemma InBlock(v: nat, w: nat, n: nat)
    requires n > 0
    ensures v / n == w / n <==> n * (w / n) <= v < n * (w / n) + n
  {
    assert v == n * (v / n) + v % n;
    if n * (w / n) <= v < n * (w / n) + n {
      Quotient(n, w / n, v - n * (w / n));
    }
  }

  /** Of two prefixes that share an address the longer lies within the shorter. */
  lemma Nested(p: Prefix, q: Prefix, a: Addr, b: Addr)
    requires Contains(p, a) && Contains(q, a) && p.bits <= q.bits && Contains(q, b)
    ensures Contains(p, b)
  {
    var w := Width(a);
    PowSum(q.bits - p.bits, w - q.bits);
    var n, k := Size(q), Pow2(q.bits - p.bits);
    assert Size(p) == k * n;
    DivDiv(a.v, n, k);
    DivDiv(b.v, n, k);
  }

  lemma DivDiv(v: nat, n: nat, k: nat)
    requires n > 0 && k > 0
    ensures k * n > 0 && v / (k * n) == v / n / k
  {
    var q := v / n;
    assert v == n * q + v % n && q == k * (q / k) + q % k;
    var r := n * (q % k) + v % n;
    assert n * q == n * (k * (q / k)) + n * (q % k);
    assert n * (k * (q / k)) == k * n * (q / k);
    assert r < k * n by {
      assert n * (q % k) + n <= n * k by { MulUp(n, q % k, k); }
    }
    Quotient(k * n, q / k, r);
  }

  lemma MulUp(n: nat, a: nat, b: nat)
    requires a < b
    ensures n * a + n <= n * b
  {
    assert n * b == n * a + n * (b - a);
    MulAtLeast(n, b - a);
  }

  lemma Block(v: nat, n: nat)
    requires n > 0
    ensures 0 <= v - v % n && (v - v % n) % n == 0 && (v - v % n) / n == v / n
  {
    assert v - v % n == n * (v / n);
    Quotient(n, v / n, 0);
  }

  lemma Quotient(n: nat, q: nat, r: nat)
    requires r < n
    ensures (n * q + r) / n == q && (n * q + r) % n == r
  {
    var x := n * q + r;
    assert x == n * (x / n) + x % n;
    if q > x / n {
      assert n * (q - x / n) >= n by { MulAtLeast(n, q - x / n); }
      assert false;
    }
    if q < x / n {
      assert n * (x / n - q) >= n by { MulAtLeast(n, x / n - q); }
      assert false;
    }
  }

  lemma MulAtLeast(n: nat, k: int)
    requires k >= 1
    ensures n * k >= n
  {
    assert n * k == n + n * (k - 1);
    assert n * (k - 1) >= 0;
  }

  /** Masking gives the canonical prefix: the same addresses, and no host bits. */
  lemma MaskedSame(p: Prefix)
    requires ValidPrefix(p)
    ensures IsMasked(Masked(p)) && Size(Masked(p)) == Size(p)
    ensures forall a :: Contains(Masked(p), a) <==> Contains(p, a)
  {
    Block(p.addr.v, Size(p));
  }

  /** Two canonical prefixes of one length that share an address are the same prefix. */
  lemma SameLength(p: Prefix, q: Prefix, a: Addr)
    requires IsMasked(p) && IsMasked(q) && p.bits == q.bits && Contains(p, a) && Contains(q, a)
    ensures p == q
  {
    var n := Size(p);
    assert p.addr.v == n * (p.addr.v / n) + p.addr.v % n;
    assert q.addr.v == n * (q.addr.v / n) + q.addr.v % n;
  }

  lemma HostContains(p: Prefix, a: Addr)
    requires IsSingle(p)
    ensures IsMasked(p)
    ensures Contains(p, a) <==> a == p.addr
  {
    assert Size(p) == 1;
  }

  /** The directed broadcast address of an IPv4 prefix of at most 30 bits. */
  function BroadcastOf(p: Prefix): (r: Addr)
    requires ValidPrefix(p)
    ensures r.NoAddr? <==> !p.addr.V4? || p.bits > 30
  {
    if p.addr.V4? && p.bits <= 30 then
      V4(Masked(p).addr.v + Size(p) - 1)
    else
      NoAddr
  }

  /** It is the last address of its prefix. */
  lemma BroadcastLast(p: Prefix)
    requires ValidPrefix(p) && p.addr.V4? && p.bits <= 30
    ensures Contains(p, BroadcastOf(p))
    ensures forall a :: Contains(p, a) ==> a.V4? && a.v <= BroadcastOf(p).v
  {
    var n := Size(p);
    var q := p.addr.v / n;
    assert Masked(p).addr.v == n * q;
    Quotient(n, q, n - 1);
    forall a | Contains(p, a)
      ensures a.V4? && a.v <= BroadcastOf(p).v
    {
      assert a.v == n * (a.v / n) + a.v % n;
    }
  }
}
