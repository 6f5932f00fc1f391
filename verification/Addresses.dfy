/** The part of Go's `net/netip` that trusting proxies leans on, without IPv6 zones: addresses as
    numbers, prefixes as the numbers that share their leading bits. */
module Addresses {
  const TWO_TO_32: nat := 0x1_0000_0000
  const TWO_TO_128: nat := 0x1_0000_0000_0000_0000_0000_0000_0000_0000

  type Word32 = n: nat | n < TWO_TO_32
  type Word128 = n: nat | n < TWO_TO_128

  datatype Addr = V4(v4: Word32) | V6(v6: Word128)
  {
    function Width(): nat {
      if V4? then 32 else 128
    }

    function Value(): nat {
      if V4? then v4 else v6
    }

    /** An IPv6 address in ::ffff:0:0/96, which stands for an IPv4 one. */
    predicate Mapped() {
      V6? && v6 / TWO_TO_32 == 0xFFFF
    }

    function Unmap(): (a: Addr)
      ensures !a.Mapped()
    {
      if Mapped() then V4(v6 % TWO_TO_32) else this
    }
  }

  function MappedFrom(w: Word32): (a: Addr)
    ensures a.Mapped() && a.Unmap() == V4(w)
  {
    V6(0xFFFF * TWO_TO_32 + w)
  }

  // ---- powers of two and division ----

  function Pow2(n: nat): (p: nat)
    ensures p > 0
  {
    if n == 0 then 1 else 2 * Pow2(n - 1)
  }

  lemma DoubledProduct(a: nat, b: nat)
    ensures 2 * a * b == 2 * (a * b)
  {
  }

  lemma {:induction false} Pow2Sum(a: nat, b: nat)
    ensures Pow2(a + b) == Pow2(a) * Pow2(b)
  {
    if a > 0 {
      Pow2Sum(a - 1, b);
      DoubledProduct(Pow2(a - 1), Pow2(b));
    }
  }

  lemma QuotientIs(v: nat, d: nat, q: nat)
    requires d > 0 && q * d <= v < q * d + d
    ensures v / d == q
  {
    var e := v / d;
    assert e < q ==> (e + 1) * d <= q * d;
    assert e > q ==> e * d >= (q + 1) * d;
  }

  lemma Rebase(e: nat, b: nat, r: nat, a: nat)
    requires r < b
    ensures (e * b + r) * a == e * (a * b) + r * a
    ensures 0 <= r * a <= a * b - a
  {
    assert e * b * a == e * (a * b);
    assert (b - 1 - r) * a >= 0;
  }

  lemma DivDiv(v: nat, a: nat, b: nat)
    requires a > 0 && b > 0
    ensures a * b > 0 && v / (a * b) == (v / a) / b
  {
    var q := v / a;
    var e, r := q / b, q % b;
    Rebase(e, b, r, a);
    var high, low := e * (a * b), r * a + v % a;
    assert v == q * a + v % a == high + low;
    QuotientIs(v, a * b, e);
  }

  // ---- prefixes ----

  datatype PrefixBase = Prefix(addr: Addr, bits: nat)
  {
    function Free(): int {
      addr.Width() - bits
    }
  }

  type Prefix = p: PrefixBase | p.bits <= p.addr.Width() witness Prefix(V4(0), 32)

  /** netip.Prefix.Contains: the same family, and the same leading bits. */
  predicate Contains(p: Prefix, a: Addr) {
    p.addr.V4? == a.V4? && p.addr.Value() / Pow2(p.Free()) == a.Value() / Pow2(p.Free())
  }

  /** `v` with its remainder by `size` taken off. */
  function Floor(v: nat, size: nat): (lo: nat)
    requires size > 0
    ensures lo == v / size * size && lo <= v < lo + size
  {
    FloorIsBelow(v, size);
    v / size * size
  }

  lemma FloorIsBelow(v: nat, size: nat)
    requires size > 0
    ensures 0 <= v / size && 0 <= v / size * size <= v < v / size * size + size
  {
    assert v == v / size * size + v % size;
    assert 0 <= v / size;
  }

  function FirstOf(p: Prefix): (lo: nat)
    ensures lo <= p.addr.Value()
  {
    Floor(p.addr.Value(), Pow2(p.Free()))
  }

  /** netip.Prefix.Masked: the address with its free bits cleared. */
  function Masked(p: Prefix): Prefix {
    Prefix(if p.addr.V4? then V4(FirstOf(p)) else V6(FirstOf(p)), p.bits)
  }

  /** netip.PrefixFrom(addr, addr.BitLen()). */
  function Single(a: Addr): Prefix {
    Prefix(a, a.Width())
  }

  /** A prefix is the interval of 2^(w-n) addresses that starts at its masked address. */
  lemma ContainsIsInterval(p: Prefix, a: Addr)
    ensures Contains(p, a) <==>
              p.addr.V4? == a.V4? && FirstOf(p) <= a.Value() < FirstOf(p) + Pow2(p.Free())
  {
    var size := Pow2(p.Free());
    FloorIsBelow(a.Value(), size);
    if FirstOf(p) <= a.Value() < FirstOf(p) + size {
      QuotientIs(a.Value(), size, p.addr.Value() / size);
    }
  }

  /** Masking changes which address a prefix is written with and nothing about what it contains. */
  lemma MaskingKeepsMembers(p: Prefix, a: Addr)
    ensures Contains(Masked(p), a) <==> Contains(p, a)
    ensures Masked(Masked(p)) == Masked(p)
  {
    var size := Pow2(p.Free());
    QuotientIs(FirstOf(p), size, p.addr.Value() / size);
  }

  lemma SingleContainsItself(a: Addr, x: Addr)
    ensures Contains(Single(a), x) <==> x == a
  {
    assert Pow2(0) == 1;
    assert a.Value() / 1 == a.Value() && x.Value() / 1 == x.Value();
  }

  // ---- prefixes written with IPv4-mapped addresses ----

  /** A prefix inside ::ffff:0:0/96. */
  predicate WrittenMapped(p: Prefix) {
    p.addr.Mapped() && p.bits >= 96
  }

  lemma MappedPrefixHoldsMapped(p: Prefix, a: Addr)
    requires WrittenMapped(p) && Contains(p, a)
    ensures a.Mapped()
  {
    var k := p.Free();
    Pow2Sum(k, 32 - k);
    assert Pow2(k) * Pow2(32 - k) == TWO_TO_32 by {
      TwoTo32();
    }
    DivDiv(p.addr.Value(), Pow2(k), Pow2(32 - k));
    DivDiv(a.Value(), Pow2(k), Pow2(32 - k));
  }

  lemma TwoTo32()
    ensures Pow2(32) == TWO_TO_32
  {
    assert Pow2(4) == 16;
    Pow2Sum(4, 4);
    Pow2Sum(8, 8);
    Pow2Sum(16, 16);
  }

  /** Multiples of 2^33 are even multiples of 2^32, so no mapped address is among them. */
  lemma EvenInUpperBits(q: nat, k: nat)
    requires k >= 33
    ensures q * Pow2(k) / TWO_TO_32 != 0xFFFF
  {
    TwoTo32();
    Pow2Sum(33, k - 33);
    EvenQuotient(q, Pow2(k - 33));
  }

  lemma EvenQuotient(q: nat, rest: nat)
    ensures q * (2 * TWO_TO_32 * rest) / TWO_TO_32 == 2 * (q * rest)
  {
    Regroup(q, rest);
    QuotientIs(2 * (q * rest) * TWO_TO_32, TWO_TO_32, 2 * (q * rest));
  }

  lemma Regroup(q: nat, rest: nat)
    ensures q * (2 * TWO_TO_32 * rest) == 2 * (q * rest) * TWO_TO_32
  {
  }

  lemma ShortPrefixStartsUnmapped(p: Prefix)
    requires p.addr.V6? && p.bits < 96
    ensures !Masked(p).addr.Mapped()
  {
    var k := p.Free();
    FloorIsBelow(p.addr.Value(), Pow2(k));
    var q := p.addr.Value() / Pow2(k);
    EvenInUpperBits(q, k);
    assert FirstOf(p) == q * Pow2(k);
  }

  /** Since the address asked about is unmapped and the prefix is not, a prefix can match something
      exactly when it does not lie inside the IPv4-mapped block. */
  lemma MatchesIffNotWrittenMapped(p: Prefix)
    ensures (exists a: Addr :: Contains(p, a.Unmap())) <==> !WrittenMapped(p)
  {
    if !WrittenMapped(p) {
      var first := if p.addr.Mapped() then Masked(p).addr else p.addr;
      if p.addr.Mapped() {
        ShortPrefixStartsUnmapped(p);
        MaskingKeepsMembers(p, first);
      }
      assert first.Unmap() == first;
      assert Contains(p, first.Unmap());
    } else {
      forall a: Addr
        ensures !Contains(p, a.Unmap())
      {
        if Contains(p, a.Unmap()) {
          MappedPrefixHoldsMapped(p, a.Unmap());
        }
      }
    }
  }
}
